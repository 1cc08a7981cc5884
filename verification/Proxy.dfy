/**
 Address translation by the MQTT proxy (bumper/mqtt/proxy.py and bumper/mqtt/server.py): requests from
 the cloud go to the robot under the sender proxyhelper, and the robot's replies go back to the sender
 that was remembered for their request id.
 */
module Proxy {
  import opened Results
  import opened Text
  import opened TtlCache

  const HELPER := "proxyhelper"

  /** timeout * timeout and timeout * 1.1 for the default timeout of 180 seconds. */
  const MAXSIZE: real := 32400.0
  const TTL: real := 198.0

  type Mapper = Cache<string>

  function Parts(topic: string): (parts: seq<string>)
    ensures parts != []
  {
    Split(topic, '/')
  }

  // ---- one message ----

  /** A topic and a body handed to publish. */
  type Publication = (string, string)

  /** A message from the cloud, and what the robot gets; a body that is not UTF-8 raises before anything is done. */
  function FromCloud(mapper: Mapper, topic: string, body: Option<string>, now: real): (Mapper, Option<Publication>) {
    var parts := Parts(topic);
    if body == None || |parts| <= 1 then (mapper, None)
    else if parts[1] != "p2p" then (mapper, Some((topic, body.value)))
    else if |parts| <= 3 || parts[3] == HELPER || |parts| <= 10 then (mapper, None)
    else
      match Insert(mapper, parts[10], parts[3], now, MAXSIZE, TTL)
      case None => (mapper, None)
      case Some(stored) => (stored, Some((Join(parts[3 := HELPER], '/'), body.value)))
  }

  /** A message that the broker received from a robot with a proxy client, and what the cloud gets. */
  function FromRobot(mapper: Mapper, topic: string, text: string, now: real): (Mapper, Option<Publication>) {
    var parts := Parts(topic);
    if |parts| < 7 || parts[3] == HELPER then (mapper, None)
    else if parts[6] != HELPER then (mapper, Some((topic, text)))
    else if |parts| <= 10 then (mapper, None)
    else
      var popped := Pop(mapper, parts[10], now);
      match Lookup(mapper, parts[10], now)
      case None => (popped, None)
      case Some(receiver) =>
        if receiver == "" then (popped, None) else (popped, Some((Join(parts[6 := receiver], '/'), text)))
  }

  // ---- all proxy clients ----

  datatype ProxyState = ProxyState(mapper: Mapper, open: bool)

  /** A message that came through a proxy client, and what was published for it. */
  datatype Note = Note(proxy: nat, fromCloud: bool, time: real, topic: string, body: Option<string>, published: Option<Publication>)

  datatype State = State(now: real, proxies: seq<ProxyState>, registry: map<string, nat>, log: seq<Note>)

  datatype Event =
    | Tick(elapsed: real)
    | Authenticated(client: string, connected: bool)
    | Disconnected(client: string)
    | Cloud(proxy: nat, topic: string, body: Option<string>)
    | Broker(client: string, topic: string, text: string)

  const INITIAL := State(0.0, [], map[], [])

  function Step(s: State, e: Event): State {
    match e
    case Tick(elapsed) => if elapsed >= 0.0 then s.(now := s.now + elapsed) else s
    case Authenticated(client, connected) =>
      s.(proxies := s.proxies + [ProxyState(Empty(), connected)], registry := s.registry[client := |s.proxies|])
    case Disconnected(client) =>
      if client in s.registry && s.registry[client] < |s.proxies| then
        var p := s.registry[client];
        s.(proxies := s.proxies[p := s.proxies[p].(open := false)], registry := s.registry - {client})
      else s
    case Cloud(p, topic, body) =>
      if p < |s.proxies| && s.proxies[p].open then
        var (mapper, published) := FromCloud(s.proxies[p].mapper, topic, body, s.now);
        Noted(s, p, mapper, Note(p, true, s.now, topic, body, published))
      else s
    case Broker(client, topic, text) =>
      if client in s.registry && s.registry[client] < |s.proxies| then
        var p := s.registry[client];
        var (mapper, published) := FromRobot(s.proxies[p].mapper, topic, text, s.now);
        Noted(s, p, mapper, Note(p, false, s.now, topic, Some(text), published))
      else s
  }

  function Noted(s: State, p: nat, mapper: Mapper, note: Note): State
    requires p < |s.proxies|
  {
    s.(proxies := s.proxies[p := s.proxies[p].(mapper := mapper)], log := s.log + [note])
  }

  function Run(events: seq<Event>): State {
    if events == [] then INITIAL else Step(Run(events[..|events| - 1]), events[|events| - 1])
  }

  // ---- requests, and the messages that answer them, by their topics ----

  /** A request of the cloud: readable, p2p, with an id in part 10, and not from the helper. */
  predicate IsRequest(topic: string, body: Option<string>) {
    body.Some? && |Parts(topic)| > 10 && Parts(topic)[1] == "p2p" && Parts(topic)[3] != HELPER
  }

  /** A message of a robot that is addressed to the helper, with an id in part 10. */
  predicate IsForHelper(topic: string) {
    |Parts(topic)| > 10 && Parts(topic)[3] != HELPER && Parts(topic)[6] == HELPER
  }

  predicate Requests(n: Note, p: nat, id: string) {
    n.proxy == p && n.fromCloud && IsRequest(n.topic, n.body) && Parts(n.topic)[10] == id
  }

  predicate Answers(n: Note, p: nat, id: string) {
    n.proxy == p && !n.fromCloud && IsForHelper(n.topic) && Parts(n.topic)[10] == id
  }

  /** The last request with this id through the proxy client, unless a robot has answered since. */
  function Open(log: seq<Note>, p: nat, id: string): (r: Option<Note>)
    ensures r.Some? ==> Requests(r.value, p, id)
  {
    if log == [] then None
    else
      var last := log[|log| - 1];
      if Requests(last, p, id) then Some(last)
      else if Answers(last, p, id) then None
      else Open(log[..|log| - 1], p, id)
  }

  lemma OpenNext(log: seq<Note>, n: Note, p: nat, id: string)
    ensures Open(log + [n], p, id) ==
            if Requests(n, p, id) then Some(n) else if Answers(n, p, id) then None else Open(log, p, id)
  {
    assert (log + [n])[..|log|] == log;
  }

  /** Who is to be answered: the sender of the open request, until its time to live is over. */
  function Pending(log: seq<Note>, p: nat, id: string, now: real): Option<string> {
    match Open(log, p, id)
    case None => None
    case Some(request) => if now < request.time + TTL then Some(Parts(request.topic)[3]) else None
  }

  // ---- what one message does to a mapper ----

  /** A topic with one part replaced splits into those parts. */
  lemma ReplacedPart(topic: string, k: nat, part: string)
    requires k < |Parts(topic)| && !Has(part, '/')
    ensures Parts(Join(Parts(topic)[k := part], '/')) == Parts(topic)[k := part]
  {
    PartsHaveNoSeparator(topic, '/');
    SplitJoin(Parts(topic)[k := part], '/');
  }

  lemma CloudMapper(mapper: Mapper, topic: string, body: Option<string>, now: real)
    ensures var after := FromCloud(mapper, topic, body, now).0;
            if IsRequest(topic, body) then
              var id := Parts(topic)[10];
              && id in after.items && after.items[id] == Item(Parts(topic)[3], now + TTL)
              && forall other :: other != id && other in after.items ==>
                   other in mapper.items && after.items[other] == mapper.items[other]
            else after == mapper
  {
    var parts := Parts(topic);
    if |parts| > 10 {
      InsertStores(mapper, parts[10], parts[3], now, MAXSIZE, TTL);
    }
  }

  /** Where there is room, a request takes nothing away from the others. */
  lemma CloudMapperKeeps(mapper: Mapper, topic: string, body: Option<string>, now: real, other: string)
    requires IsRequest(topic, body) && other != Parts(topic)[10] && Lookup(mapper, other, now).Some?
    requires |Expire(mapper, now).items| as real + 1.0 <= MAXSIZE
    ensures other in FromCloud(mapper, topic, body, now).0.items
  {
    EvictWithin(Expire(mapper, now), MAXSIZE);
  }

  lemma RobotMapper(mapper: Mapper, topic: string, text: string, now: real)
    ensures var after := FromRobot(mapper, topic, text, now).0;
            if IsForHelper(topic) then
              && Lookup(after, Parts(topic)[10], now) == None
              && (forall id :: id in after.items ==> id in mapper.items && after.items[id] == mapper.items[id])
              && forall id :: id in mapper.items && id != Parts(topic)[10] ==> id in after.items
            else after == mapper
  {
  }

  // ---- the mapper remembers open requests ----

  /** Whatever is remembered and has not expired belongs to an open request. */
  ghost predicate Remembers(s: State) {
    forall p, id :: 0 <= p < |s.proxies| && Lookup(s.proxies[p].mapper, id, s.now).Some? ==>
      var r := Open(s.log, p, id);
      r.Some? && s.proxies[p].mapper.items[id] == Item(Parts(r.value.topic)[3], r.value.time + TTL)
  }

  /** All notes and all registered clients are about proxy clients there are. */
  ghost predicate Known(s: State) {
    && (forall i :: 0 <= i < |s.log| ==> s.log[i].proxy < |s.proxies|)
    && forall client :: client in s.registry ==> s.registry[client] < |s.proxies|
  }

  lemma LaterLookup(mapper: Mapper, id: string, now: real, later: real)
    requires now <= later && Lookup(mapper, id, later).Some?
    ensures Lookup(mapper, id, now) == Lookup(mapper, id, later)
  {
  }

  lemma CloudRemembers(s: State, p: nat, topic: string, body: Option<string>)
    requires Remembers(s)
    ensures Remembers(Step(s, Cloud(p, topic, body)))
  {
    var t := Step(s, Cloud(p, topic, body));
    if p < |s.proxies| && s.proxies[p].open {
      forall q, id | 0 <= q < |t.proxies| && Lookup(t.proxies[q].mapper, id, t.now).Some?
        ensures var r := Open(t.log, q, id);
                r.Some? && t.proxies[q].mapper.items[id] == Item(Parts(r.value.topic)[3], r.value.time + TTL)
      {
        CloudRemembersOne(s, p, topic, body, q, id);
      }
    }
  }

  lemma CloudRemembersOne(s: State, p: nat, topic: string, body: Option<string>, q: nat, id: string)
    requires Remembers(s) && p < |s.proxies| && s.proxies[p].open && q < |s.proxies|
    requires Lookup(Step(s, Cloud(p, topic, body)).proxies[q].mapper, id, s.now).Some?
    ensures var t := Step(s, Cloud(p, topic, body));
            var r := Open(t.log, q, id);
            r.Some? && t.proxies[q].mapper.items[id] == Item(Parts(r.value.topic)[3], r.value.time + TTL)
  {
    var t := Step(s, Cloud(p, topic, body));
    CloudMapper(s.proxies[p].mapper, topic, body, s.now);
    OpenNext(s.log, t.log[|s.log|], q, id);
    if !Requests(t.log[|s.log|], q, id) { assert Lookup(s.proxies[q].mapper, id, s.now).Some?; }
  }

  lemma RobotRemembers(s: State, client: string, topic: string, text: string)
    requires Remembers(s)
    ensures Remembers(Step(s, Broker(client, topic, text)))
  {
    var t := Step(s, Broker(client, topic, text));
    if client in s.registry && s.registry[client] < |s.proxies| {
      RobotMapper(s.proxies[s.registry[client]].mapper, topic, text, s.now);
      forall q, id | 0 <= q < |t.proxies| && Lookup(t.proxies[q].mapper, id, t.now).Some?
        ensures var r := Open(t.log, q, id);
                r.Some? && t.proxies[q].mapper.items[id] == Item(Parts(r.value.topic)[3], r.value.time + TTL)
      {
        OpenNext(s.log, t.log[|s.log|], q, id);
        assert Lookup(s.proxies[q].mapper, id, s.now).Some?;
      }
    }
  }

  lemma OtherRemembers(s: State, e: Event)
    requires Remembers(s) && (e.Tick? || e.Authenticated? || e.Disconnected?)
    ensures Remembers(Step(s, e))
  {
    var t := Step(s, e);
    forall p, id | 0 <= p < |s.proxies| && Lookup(t.proxies[p].mapper, id, t.now).Some?
      ensures Lookup(s.proxies[p].mapper, id, s.now) == Lookup(t.proxies[p].mapper, id, t.now)
    {
      LaterLookup(s.proxies[p].mapper, id, s.now, t.now);
    }
  }

  lemma StepKnown(s: State, e: Event)
    requires Known(s)
    ensures Known(Step(s, e))
  {
  }

  lemma {:induction false} RunRemembers(events: seq<Event>)
    ensures Remembers(Run(events)) && Known(Run(events))
    decreases |events|
  {
    if events != [] {
      var s, e := Run(events[..|events| - 1]), events[|events| - 1];
      RunRemembers(events[..|events| - 1]);
      StepKnown(s, e);
      match e {
        case Cloud(p, topic, body) => CloudRemembers(s, p, topic, body);
        case Broker(client, topic, text) => RobotRemembers(s, client, topic, text);
        case _ => OtherRemembers(s, e);
      }
    }
  }

  // ---- what is published ----

  /** What the robot gets for a message of the cloud, by the parts of the topics. */
  predicate RightToRobot(n: Note) {
    var parts := Parts(n.topic);
    if n.body == None || |parts| <= 1 || (parts[1] == "p2p" && !IsRequest(n.topic, n.body)) then n.published == None
    else
      && n.published.Some? && n.published.value.1 == n.body.value
      && if parts[1] != "p2p" then n.published.value.0 == n.topic
         else Parts(n.published.value.0) == parts[..3] + ["proxyhelper"] + parts[4..]
  }

  /** What the cloud gets for a message of a robot: the answer to whoever is to be answered, or the message itself. */
  predicate RightToCloud(n: Note, receiver: Option<string>) {
    var parts := Parts(n.topic);
    if |parts| < 7 || parts[3] == "proxyhelper" then n.published == None
    else if parts[6] != "proxyhelper" then n.body.Some? && n.published == Some((n.topic, n.body.value))
    else if |parts| <= 10 || receiver == None || receiver == Some("") then n.published == None
    else
      && n.body.Some? && n.published.Some? && n.published.value.1 == n.body.value
      && Parts(n.published.value.0) == parts[..6] + [receiver.value] + parts[7..]
  }

  lemma CloudPublishes(mapper: Mapper, topic: string, body: Option<string>, now: real, p: nat)
    ensures RightToRobot(Note(p, true, now, topic, body, FromCloud(mapper, topic, body, now).1))
  {
    var parts := Parts(topic);
    if |parts| > 10 {
      ReplacedPart(topic, 3, HELPER);
      assert parts[3 := HELPER] == parts[..3] + [HELPER] + parts[4..];
    }
  }

  lemma RobotPublishes(mapper: Mapper, topic: string, text: string, now: real, p: nat)
    requires IsForHelper(topic) && Lookup(mapper, Parts(topic)[10], now).Some? ==>
               !Has(Lookup(mapper, Parts(topic)[10], now).value, '/')
    ensures RightToCloud(Note(p, false, now, topic, Some(text), FromRobot(mapper, topic, text, now).1),
                         if IsForHelper(topic) then Lookup(mapper, Parts(topic)[10], now) else None)
  {
    var parts := Parts(topic);
    if IsForHelper(topic) && Lookup(mapper, parts[10], now).Some? {
      var receiver := Lookup(mapper, parts[10], now).value;
      ReplacedPart(topic, 6, receiver);
      assert parts[6 := receiver] == parts[..6] + [receiver] + parts[7..];
    }
  }

  /** Part 3 of the topic of an open request: neither the helper nor more than one part. */
  lemma OpenSender(log: seq<Note>, p: nat, id: string)
    requires Open(log, p, id).Some?
    ensures var sender := Parts(Open(log, p, id).value.topic)[3]; sender != HELPER && !Has(sender, '/')
  {
    PartsHaveNoSeparator(Open(log, p, id).value.topic, '/');
  }

  /** The note of a step that handles a message. */
  function NoteOf(s: State, e: Event): Option<Note> {
    if |Step(s, e).log| > |s.log| then Some(Step(s, e).log[|s.log|]) else None
  }

  /** A note of a robot's message gives the cloud nothing but the message, or the answer to the open request. */
  predicate Safe(log: seq<Note>, i: nat)
    requires i < |log|
  {
    var n := log[i];
    if n.fromCloud then RightToRobot(n)
    else
      RightToCloud(n, None)
      || (IsForHelper(n.topic) && RightToCloud(n, Pending(log[..i], n.proxy, Parts(n.topic)[10], n.time)))
  }

  ghost predicate AllSafe(s: State) {
    forall i :: 0 <= i < |s.log| ==> Safe(s.log, i)
  }

  lemma NotedSafe(s: State, t: State, n: Note)
    requires AllSafe(s) && t.log == s.log + [n] && Safe(s.log + [n], |s.log|)
    ensures AllSafe(t)
  {
    forall i | 0 <= i < |t.log| ensures Safe(t.log, i) {
      if i < |s.log| { assert Safe(s.log, i) && t.log[..i] == s.log[..i]; }
    }
  }

  lemma RobotNoteSafe(s: State, p: nat, topic: string, text: string)
    requires Remembers(s) && p < |s.proxies|
    ensures var n := Note(p, false, s.now, topic, Some(text), FromRobot(s.proxies[p].mapper, topic, text, s.now).1);
            Safe(s.log + [n], |s.log|)
  {
    var mapper := s.proxies[p].mapper;
    var n := Note(p, false, s.now, topic, Some(text), FromRobot(mapper, topic, text, s.now).1);
    assert (s.log + [n])[..|s.log|] == s.log;
    if IsForHelper(topic) && Lookup(mapper, Parts(topic)[10], s.now).Some? {
      OpenSender(s.log, p, Parts(topic)[10]);
    }
    RobotPublishes(mapper, topic, text, s.now, p);
  }

  lemma StepSafe(s: State, e: Event)
    requires Remembers(s) && AllSafe(s)
    ensures AllSafe(Step(s, e))
  {
    match e {
      case Cloud(p, topic, body) =>
        if p < |s.proxies| && s.proxies[p].open {
          CloudPublishes(s.proxies[p].mapper, topic, body, s.now, p);
          NotedSafe(s, Step(s, e), NoteOf(s, e).value);
        }
      case Broker(client, topic, text) =>
        if client in s.registry && s.registry[client] < |s.proxies| {
          RobotNoteSafe(s, s.registry[client], topic, text);
          NotedSafe(s, Step(s, e), NoteOf(s, e).value);
        }
      case _ =>
    }
  }

  lemma {:induction false} RunSafe(events: seq<Event>)
    ensures AllSafe(Run(events))
    decreases |events|
  {
    if events != [] {
      RunSafe(events[..|events| - 1]);
      RunRemembers(events[..|events| - 1]);
      StepSafe(Run(events[..|events| - 1]), events[|events| - 1]);
    }
  }

  /**
   In every state, what an open proxy client publishes to the robot for a message of the cloud: a request
   under the sender proxyhelper and otherwise on its own topic, any message that is not p2p as it is, and
   nothing else.
   */
  lemma RequestsGoToTheRobot(s: State, p: nat, topic: string, body: Option<string>)
    requires p < |s.proxies| && s.proxies[p].open
    ensures var t := Step(s, Cloud(p, topic, body));
            && |t.log| == |s.log| + 1 && t.log[..|s.log|] == s.log
            && t.log[|s.log|].proxy == p && t.log[|s.log|].topic == topic && t.log[|s.log|].body == body
            && RightToRobot(t.log[|s.log|])
  {
    CloudPublishes(s.proxies[p].mapper, topic, body, s.now, p);
  }

  /** A robot that authenticates again starts with nothing to be answered: requests made before go unanswered. */
  lemma ReconnectForgets(events: seq<Event>, client: string, connected: bool, topic: string, text: string)
    requires IsForHelper(topic)
    ensures var s := Step(Run(events), Authenticated(client, connected));
            var t := Step(s, Broker(client, topic, text));
            && s.proxies[s.registry[client]].open == connected
            && |t.log| == |Run(events).log| + 1 && t.log[|Run(events).log|].published == None
  {
  }

  /** Messages of a robot that has disconnected, or never had a proxy client, are not published. */
  lemma OnlyProxiedAreHeard(events: seq<Event>, client: string, topic: string, text: string)
    ensures Step(Step(Run(events), Disconnected(client)), Broker(client, topic, text)).log == Run(events).log
    ensures client !in Run(events).registry ==> Step(Run(events), Broker(client, topic, text)) == Run(events)
  {
    RunRemembers(events);
  }

  /**
   No leak and no loop: in every run each topic published to the cloud has at least seven parts, and
   proxyhelper is neither its sender nor its receiver; and no mapper remembers it as a sender.
   */
  lemma NothingLeaks(events: seq<Event>)
    ensures forall i :: 0 <= i < |Run(events).log| && !Run(events).log[i].fromCloud && Run(events).log[i].published.Some? ==>
              var parts := Parts(Run(events).log[i].published.value.0);
              |parts| >= 7 && parts[3] != "proxyhelper" && parts[6] != "proxyhelper"
    ensures forall p, id :: 0 <= p < |Run(events).proxies| ==>
              Lookup(Run(events).proxies[p].mapper, id, Run(events).now) != Some("proxyhelper")
  {
    var s := Run(events);
    RunSafe(events);
    RunRemembers(events);
    forall i | 0 <= i < |s.log| && !s.log[i].fromCloud && s.log[i].published.Some?
      ensures var parts := Parts(s.log[i].published.value.0);
              |parts| >= 7 && parts[3] != "proxyhelper" && parts[6] != "proxyhelper"
    {
      assert Safe(s.log, i);
      PublishedIsClean(s.log, i);
    }
    forall p, id | 0 <= p < |s.proxies| ensures Lookup(s.proxies[p].mapper, id, s.now) != Some("proxyhelper") {
      if Lookup(s.proxies[p].mapper, id, s.now).Some? { OpenSender(s.log, p, id); }
    }
  }

  lemma PublishedIsClean(log: seq<Note>, i: nat)
    requires i < |log| && !log[i].fromCloud && log[i].published.Some? && Safe(log, i)
    ensures var parts := Parts(log[i].published.value.0);
            |parts| >= 7 && parts[3] != "proxyhelper" && parts[6] != "proxyhelper"
  {
    if IsForHelper(log[i].topic) && Open(log[..i], log[i].proxy, Parts(log[i].topic)[10]).Some? {
      OpenSender(log[..i], log[i].proxy, Parts(log[i].topic)[10]);
    }
  }

  /**
   In every run, what is published to the cloud for a message of a robot: one addressed to proxyhelper
   only goes, with its own text, to the non-empty sender of the last request with its id, made less
   than 198 seconds ago and not answered since, all other parts of the topic being the robot's; any
   other message that does not come from proxyhelper goes as it is.
   */
  lemma RepliesGoToTheRequester(events: seq<Event>, i: nat)
    requires i < |Run(events).log| && !Run(events).log[i].fromCloud
    ensures var n := Run(events).log[i];
            if IsForHelper(n.topic) then
              n.published.Some? ==>
                var request := Open(Run(events).log[..i], n.proxy, Parts(n.topic)[10]);
                && request.Some? && n.time < request.value.time + 198.0
                && Parts(request.value.topic)[3] != ""
                && Parts(n.published.value.0) == Parts(n.topic)[6 := Parts(request.value.topic)[3]]
                && Some(n.published.value.1) == n.body
            else RightToCloud(n, None)
  {
    RunSafe(events);
    var n := Run(events).log[i];
    assert Safe(Run(events).log, i);
    if IsForHelper(n.topic) && n.published.Some? {
      var receiver := Pending(Run(events).log[..i], n.proxy, Parts(n.topic)[10], n.time);
      assert Parts(n.topic)[..6] + [receiver.value] + Parts(n.topic)[7..] == Parts(n.topic)[6 := receiver.value];
    }
  }

  // ---- with room in the mapper, every open request is answered ----

  /** The ids with somebody to be answered. */
  function PendingIds(log: seq<Note>, p: nat, now: real): set<string> {
    set n | n in log && |Parts(n.topic)| > 10 && Pending(log, p, Parts(n.topic)[10], now).Some? :: Parts(n.topic)[10]
  }

  /** Each request finds room in the mapper: fewer than 32400 ids have somebody to be answered. */
  ghost predicate Roomy(events: seq<Event>) {
    events == [] ||
    (var s, e := Run(events[..|events| - 1]), events[|events| - 1];
     && Roomy(events[..|events| - 1])
     && (e.Cloud? && IsRequest(e.topic, e.body) ==> |PendingIds(s.log, e.proxy, s.now)| as real + 1.0 <= MAXSIZE))
  }

  /** What is remembered is exactly what is pending. */
  ghost predicate RemembersAll(s: State) {
    forall p, id :: 0 <= p < |s.proxies| ==> Lookup(s.proxies[p].mapper, id, s.now) == Pending(s.log, p, id, s.now)
  }

  lemma {:induction false} OpenIsLogged(log: seq<Note>, p: nat, id: string)
    ensures Open(log, p, id).Some? ==> Open(log, p, id).value in log
  {
    if log != [] && !Requests(log[|log| - 1], p, id) && !Answers(log[|log| - 1], p, id) {
      OpenIsLogged(log[..|log| - 1], p, id);
    }
  }

  lemma LiveIsPending(s: State, p: nat)
    requires RemembersAll(s) && p < |s.proxies|
    ensures |Expire(s.proxies[p].mapper, s.now).items| <= |PendingIds(s.log, p, s.now)|
  {
    var live := Expire(s.proxies[p].mapper, s.now).items;
    forall id | id in live ensures id in PendingIds(s.log, p, s.now) {
      assert Lookup(s.proxies[p].mapper, id, s.now).Some?;
      OpenIsLogged(s.log, p, id);
      var request := Open(s.log, p, id).value;
      assert Parts(request.topic)[10] == id;
    }
    SmallerSet(live.Keys, PendingIds(s.log, p, s.now));
    assert |live| == |live.Keys|;
  }

  lemma PendingNext(log: seq<Note>, n: Note, p: nat, id: string, now: real)
    ensures Pending(log + [n], p, id, now) ==
            if Requests(n, p, id) then (if now < n.time + TTL then Some(Parts(n.topic)[3]) else None)
            else if Answers(n, p, id) then None else Pending(log, p, id, now)
  {
    OpenNext(log, n, p, id);
  }

  lemma CloudRemembersAll(s: State, p: nat, topic: string, body: Option<string>, q: nat, id: string)
    requires RemembersAll(s) && q < |s.proxies|
    requires IsRequest(topic, body) ==> |PendingIds(s.log, p, s.now)| as real + 1.0 <= MAXSIZE
    ensures var t := Step(s, Cloud(p, topic, body));
            Lookup(t.proxies[q].mapper, id, t.now) == Pending(t.log, q, id, t.now)
  {
    if p < |s.proxies| && s.proxies[p].open {
      var t := Step(s, Cloud(p, topic, body));
      var mapper := s.proxies[p].mapper;
      CloudMapper(mapper, topic, body, s.now);
      PendingNext(s.log, t.log[|s.log|], q, id, s.now);
      if q == p && IsRequest(topic, body) && id != Parts(topic)[10] && Lookup(mapper, id, s.now).Some? {
        LiveIsPending(s, p);
        CloudMapperKeeps(mapper, topic, body, s.now, id);
      }
    }
  }

  lemma RobotRemembersAll(s: State, client: string, topic: string, text: string, q: nat, id: string)
    requires RemembersAll(s) && q < |s.proxies|
    ensures var t := Step(s, Broker(client, topic, text));
            Lookup(t.proxies[q].mapper, id, t.now) == Pending(t.log, q, id, t.now)
  {
    if client in s.registry && s.registry[client] < |s.proxies| {
      var t := Step(s, Broker(client, topic, text));
      RobotMapper(s.proxies[s.registry[client]].mapper, topic, text, s.now);
      PendingNext(s.log, t.log[|s.log|], q, id, s.now);
    }
  }

  lemma {:induction false} NothingOpenAbout(log: seq<Note>, p: nat, id: string)
    requires forall i :: 0 <= i < |log| ==> log[i].proxy != p
    ensures Open(log, p, id) == None
  {
    if log != [] { NothingOpenAbout(log[..|log| - 1], p, id); }
  }

  lemma OtherRemembersAll(s: State, e: Event, q: nat, id: string)
    requires RemembersAll(s) && Remembers(s) && Known(s) && (e.Tick? || e.Authenticated? || e.Disconnected?)
    requires q < |Step(s, e).proxies|
    ensures var t := Step(s, e); Lookup(t.proxies[q].mapper, id, t.now) == Pending(t.log, q, id, t.now)
  {
    var t := Step(s, e);
    if q < |s.proxies| {
      assert Lookup(s.proxies[q].mapper, id, s.now) == Pending(s.log, q, id, s.now);
    } else {
      NothingOpenAbout(s.log, q, id);
    }
  }

  lemma {:induction false} RunRemembersAll(events: seq<Event>)
    requires Roomy(events)
    ensures RemembersAll(Run(events))
    decreases |events|
  {
    if events != [] {
      var s, e := Run(events[..|events| - 1]), events[|events| - 1];
      RunRemembersAll(events[..|events| - 1]);
      RunRemembers(events[..|events| - 1]);
      forall q, id | 0 <= q < |Step(s, e).proxies|
        ensures Lookup(Step(s, e).proxies[q].mapper, id, Step(s, e).now) == Pending(Step(s, e).log, q, id, Step(s, e).now)
      {
        match e {
          case Cloud(p, topic, body) => CloudRemembersAll(s, p, topic, body, q, id);
          case Broker(client, topic, text) => RobotRemembersAll(s, client, topic, text, q, id);
          case _ => OtherRemembersAll(s, e, q, id);
        }
      }
    }
  }

  /**
   Then a message of a robot is published exactly as the messages before it say: addressed to
   proxyhelper, it goes to the sender of the open request with its id if that is not empty and the
   request was made less than 198 seconds ago, whatever other requests there were in between.
   */
  lemma PublishedExactly(events: seq<Event>, client: string, topic: string, text: string)
    requires Roomy(events) && client in Run(events).registry
    ensures var s := Run(events);
            var p := s.registry[client];
            var t := Step(s, Broker(client, topic, text));
            && |t.log| == |s.log| + 1
            && t.log[|s.log|].proxy == p && t.log[|s.log|].topic == topic && t.log[|s.log|].body == Some(text)
            && RightToCloud(t.log[|s.log|], if IsForHelper(topic) then Pending(s.log, p, Parts(topic)[10], s.now) else None)
  {
    var s := Run(events);
    var p := s.registry[client];
    RunRemembers(events);
    RunRemembersAll(events);
    if IsForHelper(topic) && Open(s.log, p, Parts(topic)[10]).Some? { OpenSender(s.log, p, Parts(topic)[10]); }
    RobotPublishes(s.proxies[p].mapper, topic, text, s.now, p);
  }

  // ---- no more replies than requests ----

  predicate IsReply(n: Note, p: nat, id: string) {
    Answers(n, p, id) && n.published.Some?
  }

  function Count(log: seq<Note>, p: nat, id: string, replies: bool): nat {
    if log == [] then 0
    else
      var last := log[|log| - 1];
      Count(log[..|log| - 1], p, id, replies)
      + if (if replies then IsReply(last, p, id) else Requests(last, p, id)) then 1 else 0
  }

  lemma CountNext(log: seq<Note>, n: Note, p: nat, id: string, replies: bool)
    ensures Count(log + [n], p, id, replies)
            == Count(log, p, id, replies) + if (if replies then IsReply(n, p, id) else Requests(n, p, id)) then 1 else 0
  {
    assert (log + [n])[..|log|] == log;
  }

  /** Replies are never more than requests, and one fewer while a request is open. */
  ghost predicate Balanced(log: seq<Note>, p: nat, id: string) {
    Count(log, p, id, true) + (if Open(log, p, id).Some? then 1 else 0) <= Count(log, p, id, false)
  }

  lemma {:induction false} LogBalanced(log: seq<Note>, p: nat, id: string)
    requires forall i :: 0 <= i < |log| ==> Safe(log, i)
    ensures Balanced(log, p, id)
    decreases |log|
  {
    if log != [] {
      var k := |log| - 1;
      var before := log[..k];
      forall i | 0 <= i < k ensures Safe(before, i) {
        assert Safe(log, i) && before[..i] == log[..i];
      }
      LogBalanced(before, p, id);
      assert log == before + [log[k]];
      CountNext(before, log[k], p, id, true);
      CountNext(before, log[k], p, id, false);
      OpenNext(before, log[k], p, id);
      assert Safe(log, k);
    }
  }

  /** In every run a proxy client publishes no more answers for an id than the cloud made requests with it. */
  lemma NoMoreRepliesThanRequests(events: seq<Event>, p: nat, id: string)
    ensures Count(Run(events).log, p, id, true) <= Count(Run(events).log, p, id, false)
  {
    RunSafe(events);
    LogBalanced(Run(events).log, p, id);
  }

  /** A reply within the time to live goes back to where its request came from, whatever the state before. */
  lemma RequestReplyRoundTrip(s: State, client: string, request: string, body: string, elapsed: real, reply: string, text: string)
    requires client in s.registry && s.registry[client] < |s.proxies| && s.proxies[s.registry[client]].open
    requires IsRequest(request, Some(body)) && Parts(request)[3] != ""
    requires IsForHelper(reply) && Parts(reply)[10] == Parts(request)[10]
    requires 0.0 <= elapsed < TTL
    ensures var p := s.registry[client];
            var t := Step(Step(Step(s, Cloud(p, request, Some(body))), Tick(elapsed)), Broker(client, reply, text));
            && |t.log| == |s.log| + 2
            && t.log[|s.log|].published.Some? && t.log[|s.log| + 1].published.Some?
            && Parts(t.log[|s.log|].published.value.0) == Parts(request)[3 := "proxyhelper"]
            && t.log[|s.log|].published.value.1 == body
            && Parts(t.log[|s.log| + 1].published.value.0) == Parts(reply)[6 := Parts(request)[3]]
            && t.log[|s.log| + 1].published.value.1 == text
  {
    var p, q := s.registry[client], Parts(request);
    CloudMapper(s.proxies[p].mapper, request, Some(body), s.now);
    PartsHaveNoSeparator(request, '/');
    ReplacedPart(request, 3, HELPER);
    ReplacedPart(reply, 6, q[3]);
  }
}
