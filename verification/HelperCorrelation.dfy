/** Safety of the helper bot's request correlation, over every run and every interleaving. */
module HelperCorrelation {
  import opened Results
  import opened Text
  import opened TtlCache
  import opened HelperTopics
  import opened HelperBot

  // ---- the store, seen through lookups ----

  lemma RegisteredFound(cfg: Config, s: Store, id: string, call: nat, now: real, other: string)
    requires cfg.Valid() && Register(cfg, s, id, call, now).Some?
    ensures var t := Register(cfg, s, id, call, now).value;
            && Found(t, id, now) == Some(call)
            && (other != id && Found(t, other, now).Some? ==> Found(t, other, now) == Found(s, other, now))
  {
    match s {
      case Cached(c) => InsertStores(c, id, call, now, cfg.MaxSize(), cfg.Ttl());
      case Plain(_) =>
    }
  }

  lemma UsedFound(s: Store, id: string, now: real, other: string)
    ensures Found(Used(s, id), other, now) == Found(s, other, now)
  {
  }

  lemma ForgottenFound(s: Store, id: string, now: real, other: string)
    ensures Found(Forget(s, id, now), other, now) == if other == id then None else Found(s, other, now)
  {
  }

  lemma FoundEarlier(s: Store, now: real, later: real, id: string)
    requires now <= later && Found(s, id, later).Some?
    ensures Found(s, id, now) == Found(s, id, later)
  {
  }

  // ---- no id outlives its command ----

  /** Whatever is registered is a command in flight, under its own id. */
  ghost predicate OnlyInFlight(s: State) {
    forall id :: Found(s.store, id, s.now).Some? ==>
      var k := Found(s.store, id, s.now).value;
      k < |s.calls| && s.calls[k].id == id && s.calls[k].InFlight()
  }

  lemma ExitKeepsOnlyInFlight(s: State, k: nat, result: Option<Reply>)
    requires OnlyInFlight(s) && k < |s.calls| && s.calls[k].InFlight()
    ensures OnlyInFlight(Exit(s, k, result))
  {
    forall id | Found(Exit(s, k, result).store, id, s.now).Some?
      ensures Found(s.store, id, s.now) == Found(Exit(s, k, result).store, id, s.now) && id != s.calls[k].id
    {
      ForgottenFound(s.store, s.calls[k].id, s.now, id);
    }
  }

  lemma SendKeepsOnlyInFlight(cfg: Config, s: State, id: string, payloadType: string)
    requires cfg.Valid() && OnlyInFlight(s)
    ensures OnlyInFlight(Apply(cfg, s, Send(id, payloadType)))
  {
    var t := Apply(cfg, s, Send(id, payloadType));
    if Register(cfg, s.store, id, |s.calls|, s.now).Some? {
      forall other | Found(t.store, other, t.now).Some?
        ensures var k := Found(t.store, other, t.now).value;
                k < |t.calls| && t.calls[k].id == other && t.calls[k].InFlight()
      {
        RegisteredFound(cfg, s.store, id, |s.calls|, s.now, other);
      }
    }
  }

  lemma TickKeepsOnlyInFlight(cfg: Config, s: State, elapsed: real)
    requires OnlyInFlight(s)
    ensures OnlyInFlight(Apply(cfg, s, Tick(elapsed)))
  {
    var t := Apply(cfg, s, Tick(elapsed));
    forall id | Found(t.store, id, t.now).Some? ensures Found(s.store, id, s.now) == Found(t.store, id, t.now) {
      FoundEarlier(s.store, s.now, t.now, id);
    }
  }

  lemma DeliverKeepsOnlyInFlight(s: State, topic: string, payload: string)
    requires OnlyInFlight(s)
    ensures OnlyInFlight(Deliver(s, topic, payload))
  {
    forall id ensures Found(Deliver(s, topic, payload).store, id, s.now) == Found(s.store, id, s.now) {
      UsedFound(s.store, if |Split(topic, '/')| > 10 then Split(topic, '/')[10] else "", s.now, id);
    }
  }

  lemma AbortKeepsOnlyInFlight(cfg: Config, s: State, id: string)
    requires OnlyInFlight(s)
    ensures OnlyInFlight(Apply(cfg, s, Aborted(id)))
  {
    forall other | Found(Apply(cfg, s, Aborted(id)).store, other, s.now).Some?
      ensures Found(Apply(cfg, s, Aborted(id)).store, other, s.now) == Found(s.store, other, s.now)
    {
      ForgottenFound(s.store, id, s.now, other);
    }
  }

  lemma StepKeepsOnlyInFlight(cfg: Config, s: State, e: Event)
    requires cfg.Valid() && OnlyInFlight(s)
    ensures OnlyInFlight(Step(cfg, s, e))
  {
    match e {
      case Tick(elapsed) => TickKeepsOnlyInFlight(cfg, s, elapsed);
      case Send(id, payloadType) => SendKeepsOnlyInFlight(cfg, s, id, payloadType);
      case Published(_) =>
      case Message(topic, payload) => DeliverKeepsOnlyInFlight(s, topic, payload);
      case PublishFailed(k) => if Apply(cfg, s, e) != s { ExitKeepsOnlyInFlight(s, k, None); }
      case Finished(k) =>
        if Apply(cfg, s, e) != s {
          ExitKeepsOnlyInFlight(s, k, Render(cfg, s.calls[k].payloadType, s.calls[k].response.value));
        }
      case TimedOut(k) => if Apply(cfg, s, e) != s { ExitKeepsOnlyInFlight(s, k, None); }
      case Cancelled(k) => if Apply(cfg, s, e) != s { ExitKeepsOnlyInFlight(s, k, None); }
      case Aborted(id) => AbortKeepsOnlyInFlight(cfg, s, id);
    }
    assert Step(cfg, s, e).store == Apply(cfg, s, e).store && Step(cfg, s, e).calls == Apply(cfg, s, e).calls;
  }

  /** A store with nothing in it. */
  predicate EmptyStore(store: Store) {
    store == NO_COMMANDS || store == Plain(map[])
  }

  /** In every reachable state each registered id belongs to a command in flight: no id stays when its command exits. */
  lemma {:induction false} NoStaleIds(cfg: Config, store: Store, events: seq<Event>)
    requires cfg.Valid() && EmptyStore(store)
    ensures OnlyInFlight(Run(cfg, store, events))
    decreases |events|
  {
    if events != [] {
      var n := |events| - 1;
      NoStaleIds(cfg, store, events[..n]);
      StepKeepsOnlyInFlight(cfg, Run(cfg, store, events[..n]), events[n]);
    }
  }

  /** Once a command has exited, its id is not registered, unless another command with that id is in flight. */
  lemma ExitedIdsAreGone(cfg: Config, store: Store, events: seq<Event>, k: nat)
    requires cfg.Valid() && EmptyStore(store)
    ensures var s := Run(cfg, store, events);
            && k < |s.calls| && s.calls[k].phase.Exited?
            && (forall j :: 0 <= j < |s.calls| && s.calls[j].id == s.calls[k].id ==> !s.calls[j].InFlight())
            ==> Found(s.store, s.calls[k].id, s.now) == None
  {
    NoStaleIds(cfg, store, events);
  }

  // ---- a result comes from an answer ----

  /** One of the events after the command was sent is an answer to its id with this payload. */
  ghost predicate AnsweredBy(events: seq<Event>, id: string, sent: nat, payload: string) {
    exists i :: sent < i < |events| && events[i].Message? && Answers(events[i].topic, id) && events[i].payload == payload
  }

  ghost predicate Justified(cfg: Config, events: seq<Event>, c: Call) {
    && c.sent < |events| && events[c.sent] == Send(c.id, c.payloadType)
    && (c.response.Some? ==> AnsweredBy(events, c.id, c.sent, c.response.value))
    && (c.phase.Exited? && c.phase.result.Some? ==>
          c.response.Some? && c.phase.result == Render(cfg, c.payloadType, c.response.value))
  }

  ghost predicate AllJustified(cfg: Config, events: seq<Event>, s: State) {
    s.steps == |events| && forall k :: 0 <= k < |s.calls| ==> Justified(cfg, events, s.calls[k])
  }

  lemma StillJustified(cfg: Config, events: seq<Event>, e: Event, c: Call)
    requires Justified(cfg, events, c)
    ensures Justified(cfg, events + [e], c)
  {
    var more := events + [e];
    assert more[c.sent] == events[c.sent];
    if c.response.Some? {
      var i :| c.sent < i < |events| && events[i].Message? && Answers(events[i].topic, c.id) && events[i].payload == c.response.value;
      assert more[i] == events[i];
    }
  }

  lemma DeliveredJustified(cfg: Config, events: seq<Event>, c: Call, topic: string, payload: string)
    requires Justified(cfg, events, c) && c.InFlight() && Answers(topic, c.id)
    ensures Justified(cfg, events + [Message(topic, payload)], c.(response := Some(payload)))
  {
    var more := events + [Message(topic, payload)];
    assert more[c.sent] == events[c.sent];
    assert more[|events|] == Message(topic, payload);
  }

  /** What a step does to one call: nothing, an answer, the end of publishing, or its exit. */
  lemma CallStep(cfg: Config, s: State, e: Event, k: nat)
    requires OnlyInFlight(s) && k < |s.calls|
    ensures var t := Step(cfg, s, e);
            var c, d := s.calls[k], t.calls[k];
            || d == c
            || (e.Message? && Answers(e.topic, c.id) && c.InFlight() && d == c.(response := Some(e.payload)))
            || (c.phase.Publishing? && d == c.(phase := Waiting(s.now + cfg.timeout)))
            || (c.InFlight() && d == c.(phase := Exited(None)))
            || (c.response.Some? && d == c.(phase := Exited(Render(cfg, c.payloadType, c.response.value))))
    ensures |Step(cfg, s, e).calls| == if e.Send? then |s.calls| + 1 else |s.calls|
  {
  }

  lemma StepJustified(cfg: Config, events: seq<Event>, s: State, e: Event)
    requires cfg.Valid() && OnlyInFlight(s) && AllJustified(cfg, events, s)
    ensures AllJustified(cfg, events + [e], Step(cfg, s, e))
  {
    var t := Step(cfg, s, e);
    forall k | 0 <= k < |t.calls| ensures Justified(cfg, events + [e], t.calls[k]) {
      if k < |s.calls| {
        CallStep(cfg, s, e, k);
        StillJustified(cfg, events, e, s.calls[k]);
        if e.Message? && Answers(e.topic, s.calls[k].id) && s.calls[k].InFlight() {
          DeliveredJustified(cfg, events, s.calls[k], e.topic, e.payload);
        }
      } else {
        assert (events + [e])[|events|] == e;
      }
    }
  }

  lemma {:induction false} RunJustified(cfg: Config, store: Store, events: seq<Event>)
    requires cfg.Valid() && EmptyStore(store)
    ensures AllJustified(cfg, events, Run(cfg, store, events))
    decreases |events|
  {
    if events != [] {
      var n := |events| - 1;
      RunJustified(cfg, store, events[..n]);
      NoStaleIds(cfg, store, events[..n]);
      StepJustified(cfg, events[..n], Run(cfg, store, events[..n]), events[n]);
      assert events[..n] + [events[n]] == events;
    }
  }

  /**
   In every run, a result that is not empty is the payload of a message that arrived after the command
   was registered, and whose topic carries p2p in part 1 and the command's own id in part 10.
   */
  lemma ResultsComeFromAnswers(cfg: Config, store: Store, events: seq<Event>, k: nat)
    requires cfg.Valid() && EmptyStore(store)
    ensures var s := Run(cfg, store, events);
            k < |s.calls| && s.calls[k].phase.Exited? && s.calls[k].phase.result.Some? ==>
              var c := s.calls[k];
              && c.sent < |events| && events[c.sent] == Send(c.id, c.payloadType)
              && exists i ::
                   && c.sent < i < |events| && events[i].Message? && Answers(events[i].topic, c.id)
                   && c.phase.result == Render(cfg, c.payloadType, events[i].payload)
  {
    RunJustified(cfg, store, events);
  }
}
