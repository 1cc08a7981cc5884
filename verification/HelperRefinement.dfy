/**
 When the helper bot loses no reply: with a plain dictionary it never does, and under the timing the
 cache was sized for, the cache behaves like the dictionary.
 */
module HelperRefinement {
  import opened Results
  import opened Text
  import opened TtlCache
  import opened HelperTopics
  import opened HelperBot
  import opened HelperCorrelation

  const DICTIONARY: Store := Plain(map[])

  /** No command has the id of another one that is still in flight. */
  ghost predicate DistinctIds(cfg: Config, events: seq<Event>) {
    events == [] ||
    (var n := |events| - 1;
     && DistinctIds(cfg, events[..n])
     && (events[n].Send? || events[n].Aborted? ==> !IdInFlight(Run(cfg, DICTIONARY, events[..n]), events[n].id)))
  }

  ghost predicate IdInFlight(s: State, id: string) {
    exists k :: 0 <= k < |s.calls| && s.calls[k].InFlight() && s.calls[k].id == id
  }

  /** The payload of the last answer to an id among the events after one of them. */
  function LastAnswer(events: seq<Event>, id: string, after: nat): Option<string>
    decreases |events|
  {
    if |events| <= after + 1 then None
    else
      var last := events[|events| - 1];
      if last.Message? && Answers(last.topic, id) then Some(last.payload)
      else LastAnswer(events[..|events| - 1], id, after)
  }

  // ---- the dictionary loses nothing ----

  /** A command in flight is found under its id, and holds the last answer so far. */
  ghost predicate Attended(events: seq<Event>, s: State, k: nat)
    requires k < |s.calls|
  {
    var c := s.calls[k];
    c.InFlight() ==>
      Found(s.store, c.id, s.now) == Some(k) && c.sent < |events| && c.response == LastAnswer(events, c.id, c.sent)
  }

  ghost predicate AllAttended(events: seq<Event>, s: State) {
    && s.steps == |events| && s.store.Plain?
    && forall k :: 0 <= k < |s.calls| ==> Attended(events, s, k)
  }

  lemma LastAnswerNext(events: seq<Event>, e: Event, id: string, after: nat)
    requires after < |events|
    ensures LastAnswer(events + [e], id, after) ==
            if e.Message? && Answers(e.topic, id) then Some(e.payload) else LastAnswer(events, id, after)
  {
    assert (events + [e])[..|events|] == events;
  }

  lemma DeliverAttended(cfg: Config, events: seq<Event>, s: State, topic: string, payload: string, k: nat)
    requires OnlyInFlight(s) && AllAttended(events, s) && k < |s.calls|
    ensures Attended(events + [Message(topic, payload)], Step(cfg, s, Message(topic, payload)), k)
  {
    assert Attended(events, s, k);
    if s.calls[k].InFlight() {
      LastAnswerNext(events, Message(topic, payload), s.calls[k].id, s.calls[k].sent);
    }
  }

  lemma SendAttended(cfg: Config, events: seq<Event>, s: State, id: string, payloadType: string, k: nat)
    requires OnlyInFlight(s) && AllAttended(events, s) && !IdInFlight(s, id) && k <= |s.calls|
    ensures Attended(events + [Send(id, payloadType)], Step(cfg, s, Send(id, payloadType)), k)
  {
    if k < |s.calls| {
      assert Attended(events, s, k);
      if s.calls[k].InFlight() {
        LastAnswerNext(events, Send(id, payloadType), s.calls[k].id, s.calls[k].sent);
      }
    }
  }

  lemma OtherAttended(cfg: Config, events: seq<Event>, s: State, e: Event, k: nat)
    requires OnlyInFlight(s) && AllAttended(events, s) && k < |s.calls| && !e.Message? && !e.Send?
    requires e.Aborted? ==> !IdInFlight(s, e.id)
    ensures Attended(events + [e], Step(cfg, s, e), k)
  {
    assert Attended(events, s, k);
    if s.calls[k].InFlight() {
      LastAnswerNext(events, e, s.calls[k].id, s.calls[k].sent);
      if e.PublishFailed? || e.Finished? || e.TimedOut? || e.Cancelled? {
        if e.call < |s.calls| { assert Attended(events, s, e.call); }
      }
    }
  }

  lemma StepAttended(cfg: Config, events: seq<Event>, s: State, e: Event)
    requires OnlyInFlight(s) && AllAttended(events, s) && (e.Send? || e.Aborted? ==> !IdInFlight(s, e.id))
    ensures AllAttended(events + [e], Step(cfg, s, e))
  {
    forall k | 0 <= k < |Step(cfg, s, e).calls| ensures Attended(events + [e], Step(cfg, s, e), k) {
      match e {
        case Send(id, payloadType) => SendAttended(cfg, events, s, id, payloadType, k);
        case Message(topic, payload) => DeliverAttended(cfg, events, s, topic, payload, k);
        case _ => OtherAttended(cfg, events, s, e, k);
      }
    }
  }

  lemma {:induction false} RunAttended(cfg: Config, events: seq<Event>)
    requires cfg.Valid() && DistinctIds(cfg, events)
    ensures AllAttended(events, Run(cfg, DICTIONARY, events))
    decreases |events|
  {
    if events != [] {
      var n := |events| - 1;
      RunAttended(cfg, events[..n]);
      NoStaleIds(cfg, DICTIONARY, events[..n]);
      StepAttended(cfg, events[..n], Run(cfg, DICTIONARY, events[..n]), events[n]);
      assert events[..n] + [events[n]] == events;
    }
  }

  // ---- under the timing it was made for, the cache is the dictionary ----

  /** Publishing takes less than a tenth of the timeout, and no wait goes on past its deadline. */
  predicate OnTime(cfg: Config, c: Call, now: real) {
    match c.phase
    case Publishing => now < c.registered + cfg.timeout / 10.0
    case Waiting(deadline) => now <= deadline
    case Exited(_) => true
  }

  ghost predicate Punctual(cfg: Config, s: State) {
    forall k :: 0 <= k < |s.calls| ==> OnTime(cfg, s.calls[k], s.now)
  }

  function InFlight(s: State): set<nat> {
    set k | 0 <= k < |s.calls| && s.calls[k].InFlight()
  }

  /** The run is punctual throughout, and at most timeout * 60 commands are in flight at a time. */
  ghost predicate Timely(cfg: Config, events: seq<Event>) {
    && Punctual(cfg, Run(cfg, DICTIONARY, events))
    && (events == [] ||
        (var n := |events| - 1;
         && Timely(cfg, events[..n])
         && (events[n].Send? ==> |InFlight(Run(cfg, DICTIONARY, events[..n]))| as real + 1.0 <= cfg.MaxSize())))
  }

  /** The cached bot and the dictionary bot are in the same state. */
  ghost predicate Same(cfg: Config, c: State, d: State) {
    && c.now == d.now && c.steps == d.steps && c.calls == d.calls
    && c.store.Cached? && d.store.Plain?
    && Mirrors(c.store.cache, d.store.commands, d.now)
    && forall id :: id in d.store.commands ==>
         var k := d.store.commands[id];
         k < |d.calls| && c.store.cache.items[id].expires == d.calls[k].registered + cfg.Ttl()
  }

  /** Every wait ends before the entry of its command expires. */
  ghost predicate WaitsAreShort(cfg: Config, s: State) {
    forall k :: 0 <= k < |s.calls| && s.calls[k].phase.Waiting? ==>
      s.calls[k].phase.deadline < s.calls[k].registered + cfg.Ttl()
  }

  lemma {:induction false} ImageNotLarger(keys: set<string>, values: set<nat>, m: map<string, nat>)
    requires keys <= m.Keys
    requires forall id :: id in keys ==> m[id] in values
    requires forall i, j :: i in keys && j in keys && i != j ==> m[i] != m[j]
    ensures |keys| <= |values|
    decreases keys
  {
    if keys != {} {
      var id :| id in keys;
      ImageNotLarger(keys - {id}, values - {m[id]}, m);
    }
  }

  lemma CommandsAreInFlight(s: State)
    requires OnlyInFlight(s) && s.store.Plain?
    ensures |s.store.commands| <= |InFlight(s)|
  {
    var m := s.store.commands;
    forall id | id in m ensures m[id] in InFlight(s) && s.calls[m[id]].id == id {
      assert Found(s.store, id, s.now) == Some(m[id]);
    }
    ImageNotLarger(m.Keys, InFlight(s), m);
    assert |m| == |m.Keys|;
  }

  lemma TickSame(cfg: Config, c: State, d: State, elapsed: real)
    requires cfg.Valid() && Same(cfg, c, d) && OnlyInFlight(d) && WaitsAreShort(cfg, d)
    requires Punctual(cfg, Step(cfg, d, Tick(elapsed)))
    ensures Same(cfg, Step(cfg, c, Tick(elapsed)), Step(cfg, d, Tick(elapsed)))
  {
    var d' := Step(cfg, d, Tick(elapsed));
    forall id | id in d.store.commands ensures Fresh(c.store.cache.items[id], d'.now) {
      assert Found(d.store, id, d.now) == Some(d.store.commands[id]);
      assert OnTime(cfg, d'.calls[d.store.commands[id]], d'.now);
    }
  }

  lemma SendSame(cfg: Config, c: State, d: State, id: string, payloadType: string)
    requires cfg.Valid() && Same(cfg, c, d) && OnlyInFlight(d)
    requires |InFlight(d)| as real + 1.0 <= cfg.MaxSize()
    ensures Same(cfg, Step(cfg, c, Send(id, payloadType)), Step(cfg, d, Send(id, payloadType)))
  {
    CommandsAreInFlight(d);
    InsertMirrors(c.store.cache, d.store.commands, id, |d.calls|, d.now, cfg.MaxSize(), cfg.Ttl());
    InsertStores(c.store.cache, id, |d.calls|, d.now, cfg.MaxSize(), cfg.Ttl());
  }

  lemma DeliverSame(cfg: Config, c: State, d: State, topic: string, payload: string)
    requires Same(cfg, c, d)
    ensures Same(cfg, Step(cfg, c, Message(topic, payload)), Step(cfg, d, Message(topic, payload)))
  {
    var parts := Split(topic, '/');
    if |parts| > 10 {
      OperationsMirror(c.store.cache, d.store.commands, parts[10], d.now);
    }
  }

  lemma ExitSame(cfg: Config, c: State, d: State, k: nat, result: Option<Reply>)
    requires Same(cfg, c, d) && k < |d.calls|
    ensures Same(cfg, Exit(c, k, result), Exit(d, k, result))
  {
    OperationsMirror(c.store.cache, d.store.commands, d.calls[k].id, d.now);
  }

  lemma FinishSame(cfg: Config, c: State, d: State, k: nat)
    requires Same(cfg, c, d)
    ensures Same(cfg, Step(cfg, c, Finished(k)), Step(cfg, d, Finished(k)))
  {
    if k < |d.calls| && d.calls[k].response.Some? {
      ExitSame(cfg, c, d, k, Render(cfg, d.calls[k].payloadType, d.calls[k].response.value));
    }
  }

  lemma GiveUpSame(cfg: Config, c: State, d: State, e: Event)
    requires Same(cfg, c, d) && (e.PublishFailed? || e.TimedOut? || e.Cancelled?)
    ensures Same(cfg, Step(cfg, c, e), Step(cfg, d, e))
  {
    if e.call < |d.calls| { ExitSame(cfg, c, d, e.call, None); }
  }

  lemma AbortSame(cfg: Config, c: State, d: State, id: string)
    requires Same(cfg, c, d)
    ensures Same(cfg, Step(cfg, c, Aborted(id)), Step(cfg, d, Aborted(id)))
  {
    OperationsMirror(c.store.cache, d.store.commands, id, d.now);
  }

  lemma PublishedSame(cfg: Config, c: State, d: State, k: nat)
    requires Same(cfg, c, d)
    ensures Same(cfg, Step(cfg, c, Published(k)), Step(cfg, d, Published(k)))
  {
  }

  lemma StepSame(cfg: Config, c: State, d: State, e: Event)
    requires cfg.Valid() && Same(cfg, c, d) && OnlyInFlight(d) && WaitsAreShort(cfg, d)
    requires Punctual(cfg, Step(cfg, d, e))
    requires e.Send? ==> |InFlight(d)| as real + 1.0 <= cfg.MaxSize()
    ensures Same(cfg, Step(cfg, c, e), Step(cfg, d, e))
  {
    match e {
      case Tick(elapsed) => TickSame(cfg, c, d, elapsed);
      case Send(id, payloadType) => SendSame(cfg, c, d, id, payloadType);
      case Message(topic, payload) => DeliverSame(cfg, c, d, topic, payload);
      case Published(k) => PublishedSame(cfg, c, d, k);
      case Aborted(id) => AbortSame(cfg, c, d, id);
      case Finished(k) => FinishSame(cfg, c, d, k);
      case _ => GiveUpSame(cfg, c, d, e);
    }
  }

  lemma StepKeepsWaitsShort(cfg: Config, s: State, e: Event)
    requires cfg.Valid() && WaitsAreShort(cfg, s) && Punctual(cfg, s)
    ensures WaitsAreShort(cfg, Step(cfg, s, e))
  {
    var t := Step(cfg, s, e);
    forall k | 0 <= k < |t.calls| && t.calls[k].phase.Waiting?
      ensures t.calls[k].phase.deadline < t.calls[k].registered + cfg.Ttl()
    {
      if e.Published? && e.call == k {
        assert OnTime(cfg, s.calls[k], s.now);
      }
    }
  }

  lemma {:induction false} RunWaitsShort(cfg: Config, events: seq<Event>)
    requires cfg.Valid() && Timely(cfg, events)
    ensures WaitsAreShort(cfg, Run(cfg, DICTIONARY, events))
    decreases |events|
  {
    if events != [] {
      var n := |events| - 1;
      RunWaitsShort(cfg, events[..n]);
      StepKeepsWaitsShort(cfg, Run(cfg, DICTIONARY, events[..n]), events[n]);
    }
  }

  lemma {:induction false} RunSame(cfg: Config, events: seq<Event>)
    requires cfg.Valid() && Timely(cfg, events)
    ensures Same(cfg, Run(cfg, NO_COMMANDS, events), Run(cfg, DICTIONARY, events))
    decreases |events|
  {
    if events != [] {
      var n := |events| - 1;
      RunSame(cfg, events[..n]);
      NoStaleIds(cfg, DICTIONARY, events[..n]);
      RunWaitsShort(cfg, events[..n]);
      StepSame(cfg, Run(cfg, NO_COMMANDS, events[..n]), Run(cfg, DICTIONARY, events[..n]), events[n]);
    }
  }

  /**
   If publishing takes less than a tenth of the timeout, waits end at their deadlines and at most
   timeout * 60 commands are in flight, the cached bot and the dictionary bot have the same runs.
   */
  lemma CacheRefinesDictionary(cfg: Config, events: seq<Event>)
    requires cfg.Valid() && Timely(cfg, events)
    ensures Run(cfg, NO_COMMANDS, events).calls == Run(cfg, DICTIONARY, events).calls
    ensures forall id ::
              Found(Run(cfg, NO_COMMANDS, events).store, id, Run(cfg, NO_COMMANDS, events).now)
              == Found(Run(cfg, DICTIONARY, events).store, id, Run(cfg, DICTIONARY, events).now)
  {
    RunSame(cfg, events);
    var c, d := Run(cfg, NO_COMMANDS, events), Run(cfg, DICTIONARY, events);
    forall id ensures Found(c.store, id, c.now) == Found(d.store, id, d.now) {
      OperationsMirror(c.store.cache, d.store.commands, id, d.now);
    }
  }

  /**
   No reply is lost: with distinct ids, and the timing above, a command in flight always holds the
   last answer that arrived since it was sent, even one that came before its wait began, and none
   exactly when no answer has arrived.
   */
  lemma NoReplyLost(cfg: Config, events: seq<Event>, k: nat)
    requires cfg.Valid() && DistinctIds(cfg, events) && Timely(cfg, events)
    ensures var s := Run(cfg, NO_COMMANDS, events);
            k < |s.calls| && s.calls[k].InFlight() ==>
              s.calls[k].response == LastAnswer(events, s.calls[k].id, s.calls[k].sent)
  {
    CacheRefinesDictionary(cfg, events);
    RunAttended(cfg, events);
    var d := Run(cfg, DICTIONARY, events);
    if k < |d.calls| {
      assert Attended(events, d, k);
    }
  }

  // ---- how commands end ----

  /** A command that waits, and whose id has been answered, can finish at once, with the last answer. */
  lemma AnsweredCommandFinishes(cfg: Config, events: seq<Event>, k: nat)
    requires cfg.Valid() && DistinctIds(cfg, events) && Timely(cfg, events)
    requires var s := Run(cfg, NO_COMMANDS, events);
             && k < |s.calls| && s.calls[k].phase.Waiting?
             && LastAnswer(events, s.calls[k].id, s.calls[k].sent).Some?
    ensures var s := Run(cfg, NO_COMMANDS, events);
            var c := s.calls[k];
            Step(cfg, s, Finished(k)).calls[k].phase
            == Exited(Render(cfg, c.payloadType, LastAnswer(events, c.id, c.sent).value))
  {
    NoReplyLost(cfg, events, k);
  }

  /** An answered waiter runs before its deadline. */
  predicate Served(s: State) {
    forall k :: 0 <= k < |s.calls| && s.calls[k].phase.Waiting? && s.calls[k].response.Some? ==> s.now < s.calls[k].phase.deadline
  }

  /** In no state of the run has an answered waiter been left until its deadline. */
  predicate Prompt(cfg: Config, events: seq<Event>) {
    Served(Run(cfg, NO_COMMANDS, events)) && (events == [] || Prompt(cfg, events[..|events| - 1]))
  }

  /** The step that ends a command, and the result it gives. */
  predicate Ends(s: State, e: Event, k: nat) {
    && k < |s.calls|
    && match e
       case PublishFailed(c) => c == k && s.calls[k].phase.Publishing?
       case Finished(c) => c == k && s.calls[k].phase.Waiting? && s.calls[k].response.Some?
       case TimedOut(c) => c == k && s.calls[k].phase.Waiting? && s.calls[k].phase.deadline <= s.now
       case Cancelled(c) => c == k && s.calls[k].InFlight()
       case _ => false
  }

  /** The command ends with this event after those before, and with what was answered until then. */
  ghost predicate EndsRightly(cfg: Config, before: seq<Event>, e: Event, k: nat, result: Option<Reply>) {
    var s := Run(cfg, NO_COMMANDS, before);
    && Ends(s, e, k)
    && var answer := LastAnswer(before, s.calls[k].id, s.calls[k].sent);
       && (e.Finished? ==> answer.Some? && result == Render(cfg, s.calls[k].payloadType, answer.value))
       && (e.TimedOut? ==> answer == None)
       && (!e.Finished? ==> result == None)
  }

  lemma EndingStep(cfg: Config, before: seq<Event>, e: Event, k: nat)
    requires cfg.Valid() && DistinctIds(cfg, before) && Timely(cfg, before) && Served(Run(cfg, NO_COMMANDS, before))
    requires Ends(Run(cfg, NO_COMMANDS, before), e, k)
    ensures var t := Step(cfg, Run(cfg, NO_COMMANDS, before), e);
            k < |t.calls| && t.calls[k].phase.Exited? && EndsRightly(cfg, before, e, k, t.calls[k].phase.result)
  {
    NoReplyLost(cfg, before, k);
  }

  /** A command that has exited was ended by some event of the run, and has kept its result since. */
  ghost predicate Ended(cfg: Config, events: seq<Event>, k: nat, result: Option<Reply>) {
    exists n :: 0 <= n < |events| && EndsRightly(cfg, events[..n], events[n], k, result)
  }

  lemma EndedNext(cfg: Config, events: seq<Event>, k: nat, result: Option<Reply>)
    requires events != [] && Ended(cfg, events[..|events| - 1], k, result)
    ensures Ended(cfg, events, k, result)
  {
    var before := events[..|events| - 1];
    var n :| 0 <= n < |before| && EndsRightly(cfg, before[..n], before[n], k, result);
    assert before[..n] == events[..n] && before[n] == events[n];
  }

  /** In a punctual run with room the cache refuses no command. */
  lemma NoneRefused(cfg: Config, events: seq<Event>)
    requires cfg.Valid() && events != [] && Timely(cfg, events) && events[|events| - 1].Send?
    ensures var s := Run(cfg, NO_COMMANDS, events[..|events| - 1]);
            Step(cfg, s, events[|events| - 1]).calls[|s.calls|].phase.Publishing?
  {
  }

  lemma ExitedByEnding(cfg: Config, s: State, e: Event, k: nat)
    requires k < |s.calls|
    ensures var t := Step(cfg, s, e);
            && k < |t.calls|
            && (s.calls[k].phase.Exited? ==> t.calls[k].phase == s.calls[k].phase)
            && (!s.calls[k].phase.Exited? && t.calls[k].phase.Exited? ==> Ends(s, e, k))
  {
  }

  /**
   How commands end in a punctual run that serves answered waiters before their deadlines: a finished
   command returns its last answer, a command times out only if there was no answer at all, and only
   a cancelled one or one that could not be published leaves an answer unused.
   */
  lemma {:induction false} CommandsEndRightly(cfg: Config, events: seq<Event>, k: nat)
    requires cfg.Valid() && DistinctIds(cfg, events) && Timely(cfg, events) && Prompt(cfg, events)
    ensures var s := Run(cfg, NO_COMMANDS, events);
            k < |s.calls| && s.calls[k].phase.Exited? ==> Ended(cfg, events, k, s.calls[k].phase.result)
    decreases |events|
  {
    if events != [] {
      var n := |events| - 1;
      var s := Run(cfg, NO_COMMANDS, events[..n]);
      CommandsEndRightly(cfg, events[..n], k);
      CallStepCount(cfg, s, events[n]);
      if k < |s.calls| {
        ExitedByEnding(cfg, s, events[n], k);
        if s.calls[k].phase.Exited? {
          EndedNext(cfg, events, k, s.calls[k].phase.result);
        } else if Ends(s, events[n], k) {
          EndingStep(cfg, events[..n], events[n], k);
        }
      } else if events[n].Send? {
        NoneRefused(cfg, events);
      }
    }
  }

  lemma CallStepCount(cfg: Config, s: State, e: Event)
    ensures |Step(cfg, s, e).calls| == if e.Send? then |s.calls| + 1 else |s.calls|
  {
  }
}
