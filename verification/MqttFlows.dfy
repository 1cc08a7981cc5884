/**
 The buffers of all WebSocket flows (configs/mitm-mqtt.py): what interleaved events do to them, as a
 state machine, and that each flow behaves as if it were alone.
 */
module MqttFlows {
  import opened Results
  import opened Bytes
  import opened MqttPacket
  import opened MqttReassembly

  type Flow = string

  /** The buffers by flow, and every packet dumped so far with the flow it came from. */
  datatype State = State(buffers: map<Flow, bytes>, log: seq<(Flow, Packet)>)

  datatype Event = Started(flow: Flow) | Received(flow: Flow, content: bytes) | Ended(flow: Flow)

  const NO_FLOWS := State(map[], [])

  function Tagged(flow: Flow, packets: seq<Packet>): seq<(Flow, Packet)> {
    if packets == [] then [] else [(flow, packets[0])] + Tagged(flow, packets[1..])
  }

  /** The state after an event, and the exception its handler ends in. */
  function Step(parse: Parser, s: State, e: Event): (State, Option<Failure>)
    requires Local(parse)
  {
    match e
    case Started(flow) => (s.(buffers := s.buffers[flow := []]), None)
    case Received(flow, content) =>
      if flow !in s.buffers then (s, Some(KeyError))
      else
        var d := Drain(parse, s.buffers[flow] + content);
        (State(s.buffers[flow := d.rest], s.log + Tagged(flow, d.dumped)), d.raised)
    case Ended(flow) =>
      if flow !in s.buffers then (s, Some(KeyError)) else (s.(buffers := s.buffers - {flow}), None)
  }

  /** The state after a run: exceptions end their handler, not the run. */
  function Run(parse: Parser, s: State, events: seq<Event>): State
    requires Local(parse)
    decreases |events|
  {
    if events == [] then s else Run(parse, Step(parse, s, events[0]).0, events[1..])
  }

  // ---- one flow among many ----

  /** The packets dumped for one flow. */
  function LogOf(log: seq<(Flow, Packet)>, flow: Flow): seq<Packet> {
    if log == [] then []
    else (if log[0].0 == flow then [log[0].1] else []) + LogOf(log[1..], flow)
  }

  /** What there is to see of one flow. */
  datatype View = View(buffer: Option<bytes>, dumped: seq<Packet>)

  function ViewOf(s: State, flow: Flow): View {
    View(if flow in s.buffers then Some(s.buffers[flow]) else None, LogOf(s.log, flow))
  }

  function Own(events: seq<Event>, flow: Flow): seq<Event> {
    if events == [] then []
    else (if events[0].flow == flow then [events[0]] else []) + Own(events[1..], flow)
  }

  lemma {:induction false} LogOfAppend(log: seq<(Flow, Packet)>, more: seq<(Flow, Packet)>, flow: Flow)
    ensures LogOf(log + more, flow) == LogOf(log, flow) + LogOf(more, flow)
  {
    if log == [] {
      assert log + more == more;
    } else {
      LogOfAppend(log[1..], more, flow);
      assert (log + more)[1..] == log[1..] + more && (log + more)[0] == log[0];
      Associate(if log[0].0 == flow then [log[0].1] else [], LogOf(log[1..], flow), LogOf(more, flow));
    }
  }

  lemma {:induction false} LogOfTagged(packets: seq<Packet>, tag: Flow, flow: Flow)
    ensures LogOf(Tagged(tag, packets), flow) == if tag == flow then packets else []
  {
    if packets != [] {
      LogOfTagged(packets[1..], tag, flow);
      assert Tagged(tag, packets)[1..] == Tagged(tag, packets[1..]);
      assert [packets[0]] + packets[1..] == packets;
    }
  }

  /** What an event does to a view: nothing, unless it is the flow's own. */
  function ViewStep(parse: Parser, v: View, e: Event): View
    requires Local(parse)
  {
    match e
    case Started(_) => v.(buffer := Some([]))
    case Received(_, content) =>
      if v.buffer == None then v
      else
        var d := Drain(parse, v.buffer.value + content);
        View(Some(d.rest), v.dumped + d.dumped)
    case Ended(_) => v.(buffer := None)
  }

  lemma StepSeenBy(parse: Parser, s: State, e: Event, flow: Flow)
    requires Local(parse)
    ensures ViewOf(Step(parse, s, e).0, flow) ==
            if e.flow == flow then ViewStep(parse, ViewOf(s, flow), e) else ViewOf(s, flow)
  {
    match e {
      case Received(tag, content) =>
        if tag in s.buffers {
          var d := Drain(parse, s.buffers[tag] + content);
          LogOfAppend(s.log, Tagged(tag, d.dumped), flow);
          LogOfTagged(d.dumped, tag, flow);
        }
      case _ =>
    }
  }

  /**
   Isolation: in any interleaving, what there is to see of a flow is what its own events, run alone,
   would have produced.
   */
  lemma {:induction false} FlowIsolation(parse: Parser, s: State, t: State, events: seq<Event>, flow: Flow)
    requires Local(parse) && ViewOf(s, flow) == ViewOf(t, flow)
    ensures ViewOf(Run(parse, s, events), flow) == ViewOf(Run(parse, t, Own(events, flow)), flow)
    decreases |events|
  {
    if events != [] {
      var e, tail := events[0], events[1..];
      StepSeenBy(parse, s, e, flow);
      StepSeenBy(parse, t, e, flow);
      var s' := Step(parse, s, e).0;
      if e.flow == flow {
        FlowIsolation(parse, s', Step(parse, t, e).0, tail, flow);
        assert Own(events, flow)[0] == e && Own(events, flow)[1..] == Own(tail, flow);
      } else {
        FlowIsolation(parse, s', t, tail, flow);
        assert Own(events, flow) == Own(tail, flow);
      }
    }
  }

  /** The flow is neither started again nor ended by these events. */
  predicate Undisturbed(events: seq<Event>, flow: Flow) {
    forall e :: e in events && e.flow == flow ==> e.Received?
  }

  /** All bytes these events bring for a flow. */
  function Stream(events: seq<Event>, flow: Flow): bytes {
    if events == [] then []
    else (if events[0].flow == flow && events[0].Received? then events[0].content else []) + Stream(events[1..], flow)
  }

  lemma {:induction false} RunDrains(
    parse: Parser, s: State, events: seq<Event>, flow: Flow, base: seq<Packet>, received: bytes)
    requires Local(parse) && Undisturbed(events, flow)
    requires ViewOf(s, flow) == Seen(base, Drain(parse, received))
    ensures ViewOf(Run(parse, s, events), flow) == Seen(base, Drain(parse, received + Stream(events, flow)))
    decreases |events|
  {
    if events == [] {
      assert received + [] == received;
    } else {
      var e, tail := events[0], events[1..];
      StepSeenBy(parse, s, e, flow);
      var s' := Step(parse, s, e).0;
      if e.flow == flow {
        ReceivedSeen(parse, ViewOf(s, flow), e.content, flow, base, received);
        RunDrains(parse, s', tail, flow, base, received + e.content);
        Associate(received, e.content, Stream(tail, flow));
      } else {
        RunDrains(parse, s', tail, flow, base, received);
        assert [] + Stream(tail, flow) == Stream(tail, flow);
      }
    }
  }

  /** What there is to see of a flow once its stream has been drained, after the packets it dumped before. */
  function Seen(base: seq<Packet>, d: Drained): View {
    View(Some(d.rest), base + d.dumped)
  }

  lemma ReceivedSeen(parse: Parser, v: View, content: bytes, flow: Flow, base: seq<Packet>, received: bytes)
    requires Local(parse) && v == Seen(base, Drain(parse, received))
    ensures ViewStep(parse, v, Received(flow, content)) == Seen(base, Drain(parse, received + content))
  {
    DrainAppend(parse, received, content);
    var d := Drain(parse, received);
    var next := Drain(parse, d.rest + content);
    Associate(base, d.dumped, next.dumped);
  }

  /**
   Reassembly of a whole flow: from its start on, whatever other flows do in between and however its
   bytes are cut into messages, the packets dumped and the bytes left are those of the bytes received
   so far, drained once.
   */
  lemma FlowReassembled(parse: Parser, s: State, events: seq<Event>, flow: Flow)
    requires Local(parse) && Undisturbed(events, flow)
    ensures var t := Run(parse, Step(parse, s, Started(flow)).0, events);
            ViewOf(t, flow) == Seen(LogOf(s.log, flow), Drain(parse, Stream(events, flow)))
  {
    var base := LogOf(s.log, flow);
    StepSeenBy(parse, s, Started(flow), flow);
    assert base + [] == base;
    RunDrains(parse, Step(parse, s, Started(flow)).0, events, flow, base, []);
    assert [] + Stream(events, flow) == Stream(events, flow);
  }
}
