/**
 Length-prefixed fields and topic filters taken one after the other from the front of a byte string.
 The parser, which moves an offset through the packet, reads exactly these, and writing them as
 MQTT 3.1.1 does (section 1.5.3) gives the bytes back.
 */
module MqttFields {
  import opened Results
  import opened Bytes
  import opened MqttPacket
  import Utf8

  // ---- from the front ----

  /** The first field and what follows it; a field that is cut short keeps what is there. */
  function TakeField(b: bytes): (r: Option<(bytes, bytes)>)
    ensures r.Some? ==> |r.value.1| < |b|
  {
    if |b| < 2 then None
    else
      var end := 2 + U16(b[0], b[1]);
      if end <= |b| then Some((b[2..end], b[end..])) else Some((b[2..], []))
  }

  function Fields(b: bytes): Result<seq<bytes>, Failure>
    decreases |b|
  {
    if b == [] then Success([])
    else
      match TakeField(b)
      case None => Failure(StructError)
      case Some((field, rest)) =>
        match Fields(rest)
        case Failure(e) => Failure(e)
        case Success(fields) => Success([field] + fields)
  }

  /** Topic filters as they stand in the bytes, with the QoS byte if there is one, up to the end or to a cut length prefix. */
  datatype RawFilters = End | Cut | More(topic: bytes, qos: bytes, rest: RawFilters)

  /** The first topic filter: its topic, the QoS byte after it, and what follows. */
  function TakeFilter(b: bytes): (r: Option<(bytes, bytes, bytes)>)
    ensures r.Some? ==> |r.value.2| < |b|
  {
    match TakeField(b)
    case None => None
    case Some((topic, rest)) => if rest == [] then Some((topic, [], [])) else Some((topic, rest[..1], rest[1..]))
  }

  function Filters(b: bytes): RawFilters
    decreases |b|
  {
    if b == [] then End
    else
      match TakeFilter(b)
      case None => Cut
      case Some((topic, qos, rest)) => More(topic, qos, Filters(rest))
  }

  /** The dictionary after storing the filters one after the other, up to the first that fails. */
  function StoreFilters(decode: Decoder, m: map<string, bytes>, list: RawFilters): Result<map<string, bytes>, Failure>
    decreases list
  {
    match list
    case End => Success(m)
    case Cut => Failure(StructError)
    case More(topic, qos, rest) =>
      match decode(topic)
      case None => Failure(UnicodeDecodeError)
      case Some(text) => StoreFilters(decode, m[text := qos], rest)
  }

  // ---- the parser's offsets ----

  lemma FieldAtTakes(p: bytes, offset: nat)
    ensures TakeField(From(p, offset)) ==
            match FieldAt(p, offset)
            case None => None
            case Some((length, field)) => Some((field, From(p, offset + length)))
  {
    if offset + 2 <= |p| {
      var b := From(p, offset);
      var end := 2 + U16(p[offset], p[offset + 1]);
      assert b[0] == p[offset] && b[1] == p[offset + 1];
      if end <= |b| {
        assert b[2..end] == p[offset + 2..offset + end] && b[end..] == p[offset + end..];
      } else {
        assert b[2..] == p[offset + 2..] && From(p, offset + end) == [];
      }
    }
  }

  /** Splitting from an offset of a packet gives the fields of b. */
  ghost predicate SplitAgrees(p: bytes, offset: nat, b: bytes) {
    SplitFields(p, offset) == Fields(b)
  }

  lemma SplitsAtEnd(p: bytes, offset: nat)
    requires offset >= |p| || FieldAt(p, offset) == None
    ensures SplitAgrees(p, offset, From(p, offset))
  {
    if offset >= |p| {
      assert From(p, offset) == [];
    } else {
      FieldAtTakes(p, offset);
    }
  }

  lemma SplitsBefore(p: bytes, offset: nat, length: nat, field: bytes, b: bytes, rest: bytes)
    requires FieldAt(p, offset) == Some((length, field)) && TakeField(b) == Some((field, rest))
    requires SplitAgrees(p, offset + length, rest)
    ensures SplitAgrees(p, offset, b)
  {
  }

  /** Splitting by offsets is splitting from the front of what is left. */
  lemma {:induction false} SplitIsFields(p: bytes, offset: nat)
    ensures SplitAgrees(p, offset, From(p, offset))
    decreases |p| - offset
  {
    if offset >= |p| || FieldAt(p, offset) == None {
      SplitsAtEnd(p, offset);
    } else {
      var (length, field) := FieldAt(p, offset).value;
      SplitIsFields(p, offset + length);
      SplitAgreesBefore(p, offset, length, field);
    }
  }

  lemma SplitAgreesBefore(p: bytes, offset: nat, length: nat, field: bytes)
    requires FieldAt(p, offset) == Some((length, field)) && SplitAgrees(p, offset + length, From(p, offset + length))
    ensures SplitAgrees(p, offset, From(p, offset))
  {
    FieldAtTakes(p, offset);
    SplitsBefore(p, offset, length, field, From(p, offset), From(p, offset + length));
  }

  lemma FilterAtTakes(p: bytes, offset: nat)
    ensures TakeFilter(From(p, offset)) ==
            match FieldAt(p, offset)
            case None => None
            case Some((length, topic)) =>
              var next := offset + length;
              Some((topic, Slice(p, next, next + 1), From(p, next + 1)))
  {
    FieldAtTakes(p, offset);
    if FieldAt(p, offset).Some? {
      var next := offset + FieldAt(p, offset).value.0;
      if next < |p| {
        assert p[next..][..1] == p[next..next + 1] && p[next..][1..] == p[next + 1..];
      }
    }
  }

  /** The topic filters from an offset to the end of a packet. */
  function SplitFilters(p: bytes, offset: nat): RawFilters
    decreases |p| - offset
  {
    if offset >= |p| then End
    else
      match FieldAt(p, offset)
      case None => Cut
      case Some((length, topic)) =>
        var next := offset + length;
        More(topic, Slice(p, next, next + 1), SplitFilters(p, next + 1))
  }

  ghost predicate StoreAgrees(decode: Decoder, p: bytes, offset: nat, m: map<string, bytes>) {
    ParseFilters(decode, p, offset, m) == StoreFilters(decode, m, SplitFilters(p, offset))
  }

  /** The parser's single loop is splitting into filters first and storing them afterwards. */
  lemma {:induction false} ParseIsStore(decode: Decoder, p: bytes, offset: nat, m: map<string, bytes>)
    ensures StoreAgrees(decode, p, offset, m)
    decreases |p| - offset
  {
    if offset >= |p| || FilterAt(decode, p, offset).Failure? {
      StoreAtEnd(decode, p, offset, m);
    } else {
      var (next, topic, qos) := FilterAt(decode, p, offset).value;
      ParseIsStore(decode, p, next, m[topic := qos]);
      StoreBefore(decode, p, offset, m, next, topic, qos);
    }
  }

  lemma StoreAtEnd(decode: Decoder, p: bytes, offset: nat, m: map<string, bytes>)
    requires offset >= |p| || FilterAt(decode, p, offset).Failure?
    ensures StoreAgrees(decode, p, offset, m)
  {
    if offset < |p| && FieldAt(p, offset).Some? {
      SplitFiltersNext(p, offset, FieldAt(p, offset).value.0, FieldAt(p, offset).value.1);
    }
  }

  lemma StoreBefore(decode: Decoder, p: bytes, offset: nat, m: map<string, bytes>, next: nat, topic: string, qos: bytes)
    requires offset < |p| && FilterAt(decode, p, offset) == Success((next, topic, qos))
    requires StoreAgrees(decode, p, next, m[topic := qos])
    ensures StoreAgrees(decode, p, offset, m)
  {
    var topicBytes := FilterParts(decode, p, offset, next, topic, qos);
    StoreNext(decode, m, topicBytes, topic, qos, SplitFilters(p, next));
    ParseFiltersNext(decode, p, offset, m, next, topic, qos);
  }

  lemma FilterParts(decode: Decoder, p: bytes, offset: nat, next: nat, topic: string, qos: bytes) returns (topicBytes: bytes)
    requires offset < |p| && FilterAt(decode, p, offset) == Success((next, topic, qos))
    ensures decode(topicBytes) == Some(topic) && SplitFilters(p, offset) == More(topicBytes, qos, SplitFilters(p, next))
  {
    var length;
    length, topicBytes := FieldOfFilter(decode, p, offset, next, topic, qos);
    SplitFiltersNext(p, offset, length, topicBytes);
  }

  lemma FieldOfFilter(decode: Decoder, p: bytes, offset: nat, next: nat, topic: string, qos: bytes)
    returns (length: nat, topicBytes: bytes)
    requires FilterAt(decode, p, offset) == Success((next, topic, qos))
    ensures FieldAt(p, offset) == Some((length, topicBytes)) && decode(topicBytes) == Some(topic)
    ensures next == offset + length + 1 && qos == Slice(p, offset + length, offset + length + 1)
  {
    length, topicBytes := FieldAt(p, offset).value.0, FieldAt(p, offset).value.1;
  }

  lemma ParseFiltersNext(decode: Decoder, p: bytes, offset: nat, m: map<string, bytes>, next: nat, topic: string, qos: bytes)
    requires offset < |p| && FilterAt(decode, p, offset) == Success((next, topic, qos))
    ensures ParseFilters(decode, p, offset, m) == ParseFilters(decode, p, next, m[topic := qos])
  {
  }

  lemma StoreNext(decode: Decoder, m: map<string, bytes>, topicBytes: bytes, topic: string, qos: bytes, rest: RawFilters)
    requires decode(topicBytes) == Some(topic)
    ensures StoreFilters(decode, m, More(topicBytes, qos, rest)) == StoreFilters(decode, m[topic := qos], rest)
  {
  }

  /** Splitting into filters from an offset of a packet gives the filters of b. */
  ghost predicate FiltersAgree(p: bytes, offset: nat, b: bytes) {
    SplitFilters(p, offset) == Filters(b)
  }

  lemma FiltersAtEnd(p: bytes, offset: nat)
    requires offset >= |p| || FieldAt(p, offset) == None
    ensures FiltersAgree(p, offset, From(p, offset))
  {
    if offset >= |p| {
      assert From(p, offset) == [];
    } else {
      FilterAtTakes(p, offset);
    }
  }

  lemma FiltersBefore(p: bytes, offset: nat, length: nat, topic: bytes, qos: bytes, b: bytes, rest: bytes)
    requires FieldAt(p, offset) == Some((length, topic)) && qos == Slice(p, offset + length, offset + length + 1)
    requires TakeFilter(b) == Some((topic, qos, rest)) && FiltersAgree(p, offset + length + 1, rest)
    ensures FiltersAgree(p, offset, b)
  {
    SplitFiltersNext(p, offset, length, topic);
    FiltersNext(b, topic, qos, rest);
  }

  lemma SplitFiltersNext(p: bytes, offset: nat, length: nat, topic: bytes)
    requires FieldAt(p, offset) == Some((length, topic))
    ensures var next := offset + length;
            SplitFilters(p, offset) == More(topic, Slice(p, next, next + 1), SplitFilters(p, next + 1))
  {
  }

  lemma FiltersNext(b: bytes, topic: bytes, qos: bytes, rest: bytes)
    requires TakeFilter(b) == Some((topic, qos, rest))
    ensures Filters(b) == More(topic, qos, Filters(rest))
  {
  }

  lemma FiltersAgreeBefore(p: bytes, offset: nat, length: nat, topic: bytes)
    requires FieldAt(p, offset) == Some((length, topic))
    requires FiltersAgree(p, offset + length + 1, From(p, offset + length + 1))
    ensures FiltersAgree(p, offset, From(p, offset))
  {
    var next := offset + length;
    FilterAtTakes(p, offset);
    FiltersBefore(p, offset, length, topic, Slice(p, next, next + 1), From(p, offset), From(p, next + 1));
  }

  /** Splitting into filters by offsets is taking them from the front of what is left. */
  lemma {:induction false} SplitIsFilters(p: bytes, offset: nat)
    ensures FiltersAgree(p, offset, From(p, offset))
    decreases |p| - offset
  {
    if offset >= |p| || FieldAt(p, offset) == None {
      FiltersAtEnd(p, offset);
    } else {
      var (length, topic) := FieldAt(p, offset).value;
      SplitIsFilters(p, offset + length + 1);
      FiltersAgreeBefore(p, offset, length, topic);
    }
  }

  lemma ParseIsFilters(decode: Decoder, p: bytes, offset: nat, m: map<string, bytes>)
    ensures ParseFilters(decode, p, offset, m) == StoreFilters(decode, m, Filters(From(p, offset)))
  {
    ParseIsStore(decode, p, offset, m);
    SplitIsFilters(p, offset);
  }

  // ---- writing fields ----

  predicate Fits(b: bytes) {
    |b| < 0x1_0000
  }

  function WriteField(b: bytes): bytes
    requires Fits(b)
  {
    EncodeU16(|b|) + b
  }

  function WriteFields(fields: seq<bytes>): bytes
    requires forall f :: f in fields ==> Fits(f)
  {
    if fields == [] then [] else WriteField(fields[0]) + WriteFields(fields[1..])
  }

  lemma TakeWritten(field: bytes, rest: bytes)
    requires Fits(field)
    ensures TakeField(WriteField(field) + rest) == Some((field, rest))
  {
    var b := WriteField(field) + rest;
    assert b[2..2 + |field|] == field && b[2 + |field|..] == rest;
  }

  lemma {:induction false} SplitWritten(fields: seq<bytes>)
    requires forall f :: f in fields ==> Fits(f)
    ensures Fields(WriteFields(fields)) == Success(fields)
  {
    if fields != [] {
      TakeWritten(fields[0], WriteFields(fields[1..]));
      SplitWritten(fields[1..]);
      assert [fields[0]] + fields[1..] == fields;
    }
  }

  /** A field and the rest tile the bytes; the field is shorter than announced only when nothing follows it. */
  lemma TakeTiles(b: bytes)
    requires TakeField(b).Some?
    ensures var (field, rest) := TakeField(b).value;
            var announced := U16(b[0], b[1]);
            && b == EncodeU16(announced) + field + rest
            && |field| <= announced && (|field| < announced ==> rest == [])
  {
    EncodeDecodeU16(b[0], b[1]);
    assert b == [b[0], b[1]] + b[2..];
  }

  function PadLast(fields: seq<bytes>, pad: bytes): seq<bytes>
    requires fields != []
  {
    fields[..|fields| - 1] + [fields[|fields| - 1] + pad]
  }

  /**
   The fields of any bytes that split tile them: written back, they give the same bytes, except that
   the last field may be cut short, by pad.
   */
  lemma {:induction false} FieldsTile(b: bytes) returns (pad: bytes)
    requires Fields(b).Success?
    ensures var fields := Fields(b).value;
            if fields == [] then b == []
            else
              && (forall f :: f in PadLast(fields, pad) ==> Fits(f))
              && WriteFields(PadLast(fields, pad)) == b + pad
    decreases |b|
  {
    pad := [];
    if b != [] {
      var field, rest := FirstField(b);
      TakeTiles(b);
      if rest == [] {
        pad := PadOnly(field, U16(b[0], b[1]));
        assert PadLast([field], pad) == [field + pad];
      } else {
        pad := FieldsTile(rest);
        PadFirst(field, Fields(rest).value, pad, rest);
      }
    }
  }

  lemma FirstField(b: bytes) returns (field: bytes, rest: bytes)
    requires b != [] && Fields(b).Success?
    ensures TakeField(b) == Some((field, rest)) && Fields(rest).Success? && Fields(b).value == [field] + Fields(rest).value
    ensures rest == [] <==> Fields(rest).value == []
  {
    field, rest := TakeField(b).value.0, TakeField(b).value.1;
  }

  lemma PadOnly(field: bytes, announced: nat) returns (pad: bytes)
    requires |field| <= announced < 0x1_0000
    ensures Fits(field + pad) && WriteFields([field + pad]) == EncodeU16(announced) + field + pad
  {
    pad := seq(announced - |field|, _ => 0);
    assert [field + pad][1..] == [];
    assert WriteFields([field + pad]) == WriteField(field + pad) + WriteFields([field + pad][1..]);
  }

  lemma PadFirst(first: bytes, tail: seq<bytes>, pad: bytes, rest: bytes)
    requires tail != [] && Fits(first) && forall f :: f in PadLast(tail, pad) ==> Fits(f)
    requires WriteFields(PadLast(tail, pad)) == rest + pad
    ensures forall f :: f in PadLast([first] + tail, pad) ==> Fits(f)
    ensures WriteFields(PadLast([first] + tail, pad)) == EncodeU16(|first|) + first + rest + pad
  {
    var whole := PadLast([first] + tail, pad);
    assert whole == [first] + PadLast(tail, pad) && whole[1..] == PadLast(tail, pad);
    assert WriteField(first) + (rest + pad) == EncodeU16(|first|) + first + rest + pad;
  }

  // ---- writing filters ----

  datatype Filter = Filter(topic: string, qos: byte)

  predicate ValidFilters(filters: seq<Filter>) {
    forall f :: f in filters ==> Fits(Utf8.Encode(f.topic))
  }

  function WriteFilters(filters: seq<Filter>): bytes
    requires ValidFilters(filters)
  {
    if filters == [] then []
    else WriteField(Utf8.Encode(filters[0].topic)) + ([filters[0].qos] + WriteFilters(filters[1..]))
  }

  function RawOf(filters: seq<Filter>): RawFilters {
    if filters == [] then End else More(Utf8.Encode(filters[0].topic), [filters[0].qos], RawOf(filters[1..]))
  }

  /** The dictionary that storing the filters one after the other leaves. */
  function Store(m: map<string, bytes>, filters: seq<Filter>): map<string, bytes>
    decreases |filters|
  {
    if filters == [] then m else Store(m[filters[0].topic := [filters[0].qos]], filters[1..])
  }

  lemma TakeWrittenFilter(topic: bytes, qos: byte, rest: bytes)
    requires Fits(topic)
    ensures TakeFilter(WriteField(topic) + ([qos] + rest)) == Some((topic, [qos], rest))
  {
    TakeWritten(topic, [qos] + rest);
    assert ([qos] + rest)[..1] == [qos] && ([qos] + rest)[1..] == rest;
  }

  lemma {:induction false} FiltersWritten(filters: seq<Filter>)
    requires ValidFilters(filters)
    ensures Filters(WriteFilters(filters)) == RawOf(filters)
  {
    if filters != [] {
      var f := filters[0];
      TakeWrittenFilter(Utf8.Encode(f.topic), f.qos, WriteFilters(filters[1..]));
      FiltersWritten(filters[1..]);
    }
  }

  lemma {:induction false} StoreWritten(decode: Decoder, m: map<string, bytes>, filters: seq<Filter>)
    requires Utf8.Inverts(decode)
    ensures StoreFilters(decode, m, RawOf(filters)) == Success(Store(m, filters))
    decreases |filters|
  {
    if filters != [] {
      var f := filters[0];
      Utf8.Recovers(decode, f.topic);
      StoreWritten(decode, m[f.topic := [f.qos]], filters[1..]);
    }
  }

  predicate DistinctTopics(filters: seq<Filter>) {
    forall i, j :: 0 <= i < j < |filters| ==> filters[i].topic != filters[j].topic
  }

  /** With distinct topics every filter keeps its own QoS byte, and nothing else is stored. */
  lemma {:induction false} StoreDistinct(m: map<string, bytes>, filters: seq<Filter>)
    requires DistinctTopics(filters)
    ensures var r := Store(m, filters);
            && (forall k :: 0 <= k < |filters| ==> filters[k].topic in r && r[filters[k].topic] == [filters[k].qos])
            && (forall t :: t in r <==> t in m || exists k :: 0 <= k < |filters| && filters[k].topic == t)
            && (forall t :: t in m && (forall k :: 0 <= k < |filters| ==> filters[k].topic != t) ==> r[t] == m[t])
    decreases |filters|
  {
    if filters != [] {
      var m' := m[filters[0].topic := [filters[0].qos]];
      var tail := filters[1..];
      StoreDistinct(m', tail);
      assert forall k :: 0 <= k < |tail| ==> tail[k] == filters[k + 1];
      assert forall k :: 1 <= k < |filters| ==> filters[k] == tail[k - 1];
      assert filters[0].topic in m';
    }
  }

  // ---- tiling ----

  predicate HasCut(list: RawFilters) {
    list.Cut? || (list.More? && HasCut(list.rest))
  }

  predicate WholeFilters(list: RawFilters) {
    match list
    case End => true
    case Cut => false
    case More(topic, qos, rest) => Fits(topic) && |qos| == 1 && WholeFilters(rest)
  }

  function WriteRawFilters(list: RawFilters): bytes
    requires WholeFilters(list)
  {
    match list
    case End => []
    case More(topic, qos, rest) => WriteField(topic) + qos + WriteRawFilters(rest)
  }

  function PadLastFilter(list: RawFilters, padTopic: bytes, padQos: bytes): RawFilters {
    match list
    case More(topic, qos, rest) =>
      if rest.End? then More(topic + padTopic, qos + padQos, End)
      else More(topic, qos, PadLastFilter(rest, padTopic, padQos))
    case _ => list
  }

  function LastQos(list: RawFilters): bytes {
    match list
    case More(_, qos, rest) => if rest.End? then qos else LastQos(rest)
    case _ => []
  }

  /**
   The topic filters of any bytes that split tile them: written back they give the same bytes, except
   that the last topic, or the QoS byte after it, may be cut short.
   */
  lemma {:induction false} FiltersTile(b: bytes) returns (padTopic: bytes, padQos: bytes)
    requires !HasCut(Filters(b))
    ensures padTopic != [] ==> LastQos(Filters(b)) == []
    ensures var padded := PadLastFilter(Filters(b), padTopic, padQos);
            WholeFilters(padded) && WriteRawFilters(padded) == b + padTopic + padQos
    decreases |b|
  {
    padTopic, padQos := [], [];
    if b != [] {
      var (topic, qos, rest) := TakeFilter(b).value;
      TakeFilterTiles(b);
      if rest == [] {
        padTopic, padQos := PadOnlyFilter(topic, qos, U16(b[0], b[1]));
      } else {
        padTopic, padQos := FiltersTile(rest);
        PrependFilter(topic, qos, PadLastFilter(Filters(rest), padTopic, padQos), rest, padTopic, padQos);
      }
    }
  }

  lemma TakeFilterTiles(b: bytes)
    requires TakeFilter(b).Some?
    ensures var (topic, qos, rest) := TakeFilter(b).value;
            var announced := U16(b[0], b[1]);
            && b == EncodeU16(announced) + topic + qos + rest
            && |topic| <= announced && |qos| <= 1
            && (rest != [] ==> |qos| == 1 && |topic| == announced)
            && (|topic| < announced ==> qos == [])
  {
    TakeTiles(b);
  }

  lemma PadOnlyFilter(topic: bytes, qos: bytes, announced: nat) returns (padTopic: bytes, padQos: bytes)
    requires |topic| <= announced < 0x1_0000 && |qos| <= 1
    requires |topic| < announced ==> qos == []
    ensures padTopic != [] ==> qos == []
    ensures Fits(topic + padTopic) && |qos + padQos| == 1
    ensures WriteRawFilters(More(topic + padTopic, qos + padQos, End))
            == EncodeU16(announced) + topic + qos + padTopic + padQos
  {
    padTopic := seq(announced - |topic|, _ => 0);
    padQos := seq(1 - |qos|, _ => 0);
  }

  lemma PrependFilter(topic: bytes, qos: bytes, padded: RawFilters, rest: bytes, padTopic: bytes, padQos: bytes)
    requires Fits(topic) && |qos| == 1 && WholeFilters(padded)
    requires WriteRawFilters(padded) == rest + padTopic + padQos
    ensures WriteRawFilters(More(topic, qos, padded)) == EncodeU16(|topic|) + topic + qos + rest + padTopic + padQos
  {
  }
}
