/**
 The request correlation of the helper bot (bumper/mqtt/helper_bot.py) as a state machine: commands in
 flight, the cache that finds them by request id, and the messages, timeouts and failures that
 interleave with them.
 */
module HelperBot {
  import opened Results
  import opened Text
  import opened TtlCache

  /** Where the commands in flight are found by request id: the cache of the source, or a plain dictionary. */
  datatype Store = Cached(cache: Cache<nat>) | Plain(commands: map<string, nat>)

  datatype Phase = Publishing | Waiting(deadline: real) | Exited(result: Option<Reply>)

  /** A reply handed to the caller: a decoded JSON object, or text. */
  datatype Reply = Object(json: string) | Text(text: string)
  {
    /** The response it was made from. */
    function Content(): string {
      if Object? then json else text
    }
  }

  /** What json.loads makes of a string: an object, some other value, or an exception. */
  datatype Json = IsObject | IsOther | IsInvalid

  type Classifier = string -> Json

  /** One run of send_command_plain and its CommandDto. */
  datatype Call = Call(id: string, payloadType: string, sent: nat, registered: real, response: Option<string>, phase: Phase)
  {
    predicate InFlight() {
      !phase.Exited?
    }
  }

  datatype State = State(now: real, steps: nat, store: Store, calls: seq<Call>)

  /** Aborted is a command that ends before it is registered, and takes its id out of the store all the same. */
  datatype Event =
    | Tick(elapsed: real)
    | Send(id: string, payloadType: string)
    | Published(call: nat)
    | PublishFailed(call: nat)
    | Message(topic: string, payload: string)
    | Finished(call: nat)
    | TimedOut(call: nat)
    | Cancelled(call: nat)
    | Aborted(id: string)

  datatype Config = Config(timeout: real, json: Classifier)
  {
    predicate Valid() {
      timeout > 0.0
    }

    function MaxSize(): real {
      timeout * 60.0
    }

    function Ttl(): real {
      timeout * 1.1
    }
  }

  // ---- the store ----

  function Found(s: Store, id: string, now: real): Option<nat> {
    match s
    case Cached(c) => Lookup(c, id, now)
    case Plain(m) => if id in m then Some(m[id]) else None
  }

  function Register(cfg: Config, s: Store, id: string, call: nat, now: real): Option<Store> {
    match s
    case Cached(c) =>
      (match Insert(c, id, call, now, cfg.MaxSize(), cfg.Ttl())
       case None => None
       case Some(d) => Some(Cached(d)))
    case Plain(m) => Some(Plain(m[id := call]))
  }

  function Used(s: Store, id: string): Store {
    match s
    case Cached(c) => Cached(Touch(c, id))
    case Plain(_) => s
  }

  function Forget(s: Store, id: string, now: real): Store {
    match s
    case Cached(c) => Cached(Pop(c, id, now))
    case Plain(m) => Plain(m - {id})
  }

  // ---- steps ----

  /** What wait_for_response returns; None is an exception, which _wait_for_resp turns into None. */
  function Render(cfg: Config, payloadType: string, response: string): Option<Reply> {
    if payloadType != "j" then Some(Text(response))
    else
      match cfg.json(response)
      case IsObject => Some(Object(response))
      case IsOther => Some(Text(response))
      case IsInvalid => None
  }

  function Exit(s: State, k: nat, result: Option<Reply>): State
    requires k < |s.calls|
  {
    var call := s.calls[k];
    s.(calls := s.calls[k := call.(phase := Exited(result))], store := Forget(s.store, call.id, s.now))
  }

  /** The payload is handed to the command registered under the id, if there is one. */
  function Hand(s: State, id: string, payload: string): State {
    match Found(s.store, id, s.now)
    case Some(k) =>
      if k < |s.calls| then s.(calls := s.calls[k := s.calls[k].(response := Some(payload))], store := Used(s.store, id))
      else s
    case None => s
  }

  /** The message is handed to the command it answers. */
  function Deliver(s: State, topic: string, payload: string): State {
    var parts := Split(topic, '/');
    if |parts| > 10 && parts[1] == "p2p" then Hand(s, parts[10], payload) else s
  }

  function Apply(cfg: Config, s: State, e: Event): State {
    match e
    case Tick(elapsed) => if elapsed >= 0.0 then s.(now := s.now + elapsed) else s
    case Send(id, payloadType) =>
      var call := Call(id, payloadType, s.steps, s.now, None, Publishing);
      (match Register(cfg, s.store, id, |s.calls|, s.now)
       case None => s.(calls := s.calls + [call.(phase := Exited(None))])
       case Some(store) => s.(calls := s.calls + [call], store := store))
    case Published(k) =>
      if k < |s.calls| && s.calls[k].phase.Publishing? then
        s.(calls := s.calls[k := s.calls[k].(phase := Waiting(s.now + cfg.timeout))])
      else s
    case PublishFailed(k) => if k < |s.calls| && s.calls[k].phase.Publishing? then Exit(s, k, None) else s
    case Message(topic, payload) => Deliver(s, topic, payload)
    case Finished(k) =>
      if k < |s.calls| && s.calls[k].phase.Waiting? && s.calls[k].response.Some? then
        Exit(s, k, Render(cfg, s.calls[k].payloadType, s.calls[k].response.value))
      else s
    case TimedOut(k) =>
      if k < |s.calls| && s.calls[k].phase.Waiting? && s.calls[k].phase.deadline <= s.now then Exit(s, k, None) else s
    case Cancelled(k) => if k < |s.calls| && s.calls[k].InFlight() then Exit(s, k, None) else s
    case Aborted(id) => s.(store := Forget(s.store, id, s.now))
  }

  /** One step of the event loop; an event that is not possible in the state changes nothing. */
  function Step(cfg: Config, s: State, e: Event): State {
    Apply(cfg, s, e).(steps := s.steps + 1)
  }

  function Run(cfg: Config, store: Store, events: seq<Event>): State {
    if events == [] then State(0.0, 0, store, [])
    else Step(cfg, Run(cfg, store, events[..|events| - 1]), events[|events| - 1])
  }

  const NO_COMMANDS := Cached(Empty())
}
