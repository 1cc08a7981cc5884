/** What holds of XMPP sessions in every run: states only grow, the registry is exact, one proceed per connection. */
module XmppSessions {
  import opened Results
  import opened Xmpp

  // ---- what the handlers do to the connections ----

  /** Only in these directions does a connection change. */
  ghost predicate Evolves(a: Conn, b: Conn) {
    && a.state <= b.state && (a.state <= DISCONNECT ==> b.state <= DISCONNECT)
    && (a.lost ==> b.lost)
    && (a.tlsUpgraded ==> b.tlsUpgraded)
  }

  /** Connection c becomes conn, and the other connections, the registry and the protocols stay as they are. */
  ghost predicate OnlyConn(s: State, t: State, c: nat, conn: Conn) {
    && c < |s.conns| && t.conns == s.conns[c := conn]
    && t.clients == s.clients && t.protocols == s.protocols
  }

  lemma SetStateChanges(s: State, c: nat, state: nat)
    requires c < |s.conns|
    ensures var t := SetState(s, c, state);
            t.sent == s.sent && OnlyConn(s, t, c, s.conns[c].(state := if s.conns[c].state > state then s.conns[c].state else state))
  {
  }

  lemma {:induction false} DisconnectAllKeeps(s: State, clients: seq<nat>)
    ensures var t := DisconnectAll(s, clients);
            t.conns == s.conns && t.clients == s.clients && t.sent == s.sent && t.protocols == s.protocols
    decreases |clients|
  {
    if clients != [] {
      DisconnectAllKeeps(if clients[0] < |s.conns| then Flag(s, clients[0], false) else s, clients[1..]);
    }
  }

  function Raised(conn: Conn, state: nat): Conn {
    conn.(state := if conn.state > state then conn.state else state)
  }

  /** What authentication makes of a connection. */
  function AuthConn(cfg: Config, before: Conn, name: string, newResource: Option<string>, authorized: bool): Conn {
    var conn := before.(uid := name, resource := if newResource.Some? then newResource else before.resource);
    if IsBot(conn) then Raised(conn.(kind := Bot), INIT)
    else if (authorized || !cfg.useAuth) && conn.resource.Some? then Raised(conn.(kind := Controller), INIT)
    else conn
  }

  lemma BotChanges(s: State, c: nat)
    requires c < |s.conns|
    ensures OnlyConn(s, AdmitBot(s, c), c, Raised(s.conns[c].(kind := Bot), INIT))
  {
  }

  lemma ControllerChanges(s: State, c: nat)
    requires c < |s.conns|
    ensures OnlyConn(s, AdmitController(s, c), c, Raised(s.conns[c].(kind := Controller), INIT))
  {
  }

  lemma AuthChanges(cfg: Config, s: State, c: nat, name: string, newResource: Option<string>, authorized: bool)
    requires c < |s.conns|
    ensures OnlyConn(s, HandleAuth(cfg, s, c, name, newResource, authorized), c,
                     AuthConn(cfg, s.conns[c], name, newResource, authorized))
  {
    var conn := s.conns[c].(uid := name, resource := if newResource.Some? then newResource else s.conns[c].resource);
    var t := Put(s, c, conn);
    BotChanges(t, c);
    ControllerChanges(t, c);
  }

  /** What a stream header makes of a connection. */
  function ConnectConn(conn: Conn, namespaced: bool, deviceClass: Option<string>): Conn {
    if conn.state == CONNECT && namespaced && deviceClass.Some? then conn.(devclass := deviceClass.value) else conn
  }

  lemma ConnectChanges(s: State, c: nat, namespaced: bool, deviceClass: Option<string>)
    requires c < |s.conns|
    ensures OnlyConn(s, HandleConnect(s, c, namespaced, deviceClass), c, ConnectConn(s.conns[c], namespaced, deviceClass))
  {
  }

  /** What binding makes of a connection. */
  function BindConn(cfg: Config, conn: Conn, boundResource: Option<Option<string>>): Conn {
    Raised(BoundConn(cfg, conn, boundResource), BIND)
  }

  lemma BindChanges(cfg: Config, s: State, c: nat, boundResource: Option<Option<string>>)
    requires c < |s.conns|
    ensures OnlyConn(s, HandleBind(cfg, s, c, boundResource), c, BindConn(cfg, s.conns[c], boundResource))
  {
  }

  predicate IsRouting(e: Event) {
    e.Control? || e.Ping? || e.Result?
  }

  lemma ControlKeeps(cfg: Config, s: State, c: nat, iq: Iq)
    requires c < |s.conns|
    ensures HandleControl(cfg, s, c, iq) == s.(sent := HandleControl(cfg, s, c, iq).sent)
  {
  }

  lemma PingKeeps(cfg: Config, s: State, c: nat, iq: Iq)
    requires c < |s.conns|
    ensures HandlePing(cfg, s, c, iq) == s.(sent := HandlePing(cfg, s, c, iq).sent)
  {
  }

  lemma ResultKeeps(cfg: Config, s: State, c: nat, iq: Iq)
    requires c < |s.conns|
    ensures HandleResult(cfg, s, c, iq) == s.(sent := HandleResult(cfg, s, c, iq).sent)
  {
  }

  lemma RoutingKeeps(cfg: Config, s: State, e: Event)
    requires IsRouting(e)
    ensures Step(cfg, s, e) == s.(sent := Step(cfg, s, e).sent)
  {
    if Live(s, e.conn) {
      match e {
        case Control(c, iq) => ControlKeeps(cfg, s, c, iq);
        case Ping(c, iq) => PingKeeps(cfg, s, c, iq);
        case Result(c, iq) => ResultKeeps(cfg, s, c, iq);
      }
    }
  }

  predicate IsRecords(e: Event) {
    e.BotAdded? || e.BotRemoved? || e.ClientAdded? || e.ClientRemoved?
  }

  lemma RecordsKeep(cfg: Config, s: State, e: Event)
    requires IsRecords(e)
    ensures var t := Step(cfg, s, e);
            t.conns == s.conns && t.clients == s.clients && t.protocols == s.protocols && t.sent == s.sent
  {
  }

  /** The connection an event is handled on, if it is handled at all. */
  function Handled(s: State, e: Event): Option<nat> {
    var c := match e
             case StreamOpened(c, _, _) => c
             case Authenticating(c, _, _, _) => c
             case Binding(c, _) => c
             case OpeningSession(c) => c
             case Unavailable(c) => c
             case StreamClosed(c) => c
             case StartTlsReceived(c) => c
             case StartTlsRuns(c) => c
             case _ => |s.conns|;
    if c < |s.conns| then Some(c) else None
  }

  /** A step that is handled on c changes only c, and in the right direction. */
  ghost predicate ChangesRightly(s: State, t: State, c: nat) {
    && c < |s.conns| && c < |t.conns| && OnlyConn(s, t, c, t.conns[c])
    && Evolves(s.conns[c], t.conns[c]) && t.conns[c].lost == s.conns[c].lost
  }

  lemma StateHandlersChange(cfg: Config, s: State, e: Event)
    requires Handled(s, e).Some? && (e.OpeningSession? || e.Unavailable? || e.StreamClosed? || e.StreamOpened?)
    ensures ChangesRightly(s, Step(cfg, s, e), Handled(s, e).value)
    ensures Step(cfg, s, e).conns[Handled(s, e).value].tlsUpgraded == s.conns[Handled(s, e).value].tlsUpgraded
  {
    match e {
      case OpeningSession(c) => SetStateChanges(s, c, READY);
      case Unavailable(c) => SetStateChanges(s, c, DISCONNECT);
      case StreamClosed(c) => SetStateChanges(Send(s, c, Answer("</stream:stream>")), c, DISCONNECT);
      case StreamOpened(c, namespaced, deviceClass) => ConnectChanges(s, c, namespaced, deviceClass);
    }
  }

  lemma LoginHandlersChange(cfg: Config, s: State, e: Event)
    requires Handled(s, e).Some? && (e.Authenticating? || e.Binding?)
    ensures ChangesRightly(s, Step(cfg, s, e), Handled(s, e).value)
    ensures Step(cfg, s, e).conns[Handled(s, e).value].tlsUpgraded == s.conns[Handled(s, e).value].tlsUpgraded
  {
    match e {
      case Authenticating(c, name, newResource, authorized) => AuthChanges(cfg, s, c, name, newResource, authorized);
      case Binding(c, boundResource) => BindChanges(cfg, s, c, boundResource);
      case _ =>
    }
  }

  lemma TlsScheduled(cfg: Config, s: State, e: Event)
    requires Handled(s, e).Some? && e.StartTlsReceived?
    ensures ChangesRightly(s, Step(cfg, s, e), Handled(s, e).value)
    ensures Step(cfg, s, e).conns[Handled(s, e).value].tlsUpgraded == s.conns[Handled(s, e).value].tlsUpgraded
  {
  }

  lemma TlsRunChanges(cfg: Config, s: State, e: Event)
    requires Handled(s, e).Some? && e.StartTlsRuns?
    ensures ChangesRightly(s, Step(cfg, s, e), Handled(s, e).value)
  {
  }

  lemma HandledChanges(cfg: Config, s: State, e: Event)
    requires Handled(s, e).Some?
    ensures ChangesRightly(s, Step(cfg, s, e), Handled(s, e).value)
    ensures !e.StartTlsRuns? ==>
              Step(cfg, s, e).conns[Handled(s, e).value].tlsUpgraded == s.conns[Handled(s, e).value].tlsUpgraded
  {
    if e.Authenticating? || e.Binding? {
      LoginHandlersChange(cfg, s, e);
    } else if e.StartTlsReceived? {
      TlsScheduled(cfg, s, e);
    } else if e.StartTlsRuns? {
      TlsRunChanges(cfg, s, e);
    } else {
      StateHandlersChange(cfg, s, e);
    }
  }

  lemma LostChanges(cfg: Config, s: State, p: nat)
    requires p in s.protocols && Live(s, s.protocols[p])
    ensures var c, t := s.protocols[p], Step(cfg, s, ConnectionLost(p));
            && t.conns == s.conns[c := s.conns[c].(lost := true, state := t.conns[c].state)]
            && t.conns[c].state >= DISCONNECT && (s.conns[c].state <= DISCONNECT ==> t.conns[c].state == DISCONNECT)
            && t.clients == Remove(s.clients, c) && t.protocols == s.protocols && t.sent == s.sent
  {
  }

  lemma StepEvolves(cfg: Config, s: State, e: Event, c: nat)
    requires c < |s.conns|
    ensures c < |Step(cfg, s, e).conns| && Evolves(s.conns[c], Step(cfg, s, e).conns[c])
  {
    if Handled(s, e).Some? {
      HandledChanges(cfg, s, e);
    } else if IsRouting(e) {
      RoutingKeeps(cfg, s, e);
    } else if IsRecords(e) {
      RecordsKeep(cfg, s, e);
    } else if e.ServerDisconnects? {
      DisconnectAllKeeps(s, s.clients);
    } else if e.ConnectionLost? && e.protocol in s.protocols && Live(s, s.protocols[e.protocol]) {
      LostChanges(cfg, s, e.protocol);
    }
  }

  // ---- states over a run ----

  function RunFrom(cfg: Config, s: State, events: seq<Event>): State
    decreases |events|
  {
    if events == [] then s else RunFrom(cfg, Step(cfg, s, events[0]), events[1..])
  }

  /** Over any run, the state of a connection never decreases, and DISCONNECT is final. */
  lemma {:induction false} StatesOnlyGrow(cfg: Config, s: State, events: seq<Event>, c: nat)
    requires c < |s.conns| && s.conns[c].state <= DISCONNECT
    ensures var t := RunFrom(cfg, s, events);
            && c < |t.conns| && s.conns[c].state <= t.conns[c].state <= DISCONNECT
            && (s.conns[c].state == DISCONNECT ==> t.conns[c].state == DISCONNECT)
    decreases |events|
  {
    if events != [] {
      StepEvolves(cfg, s, events[0], c);
      StatesOnlyGrow(cfg, Step(cfg, s, events[0]), events[1..], c);
    }
  }

  // ---- the registry ----

  ghost predicate Distinct(clients: seq<nat>) {
    forall i, j :: 0 <= i < j < |clients| ==> clients[i] != clients[j]
  }

  /** The registry holds each connection that is not lost exactly once, and no other. */
  ghost predicate RegistryExact(s: State) {
    && Distinct(s.clients)
    && (forall c :: c in s.clients <==> 0 <= c < |s.conns| && !s.conns[c].lost)
  }

  /** Each connection belongs to one protocol, which knows it. */
  ghost predicate ProtocolsKnow(s: State) {
    && (forall p :: p in s.protocols ==> s.protocols[p] < |s.conns|)
    && (forall p, q :: p in s.protocols && q in s.protocols && s.protocols[p] == s.protocols[q] ==> p == q)
  }

  lemma {:induction false} RemoveDistinct(clients: seq<nat>, c: nat)
    requires Distinct(clients)
    ensures Distinct(Remove(clients, c))
    ensures forall d :: d in Remove(clients, c) <==> d in clients && d != c
    decreases |clients|
  {
    if clients != [] {
      var tail := clients[1..];
      assert forall d :: d in clients <==> d == clients[0] || d in tail;
      assert clients[0] !in tail;
      if clients[0] != c {
        RemoveDistinct(tail, c);
        assert clients[0] !in Remove(tail, c);
      }
    }
  }

  lemma MadeKeepsRegistry(cfg: Config, s: State, p: nat, transport: nat)
    requires RegistryExact(s) && ProtocolsKnow(s)
    ensures RegistryExact(Step(cfg, s, ConnectionMade(p, transport)))
    ensures ProtocolsKnow(Step(cfg, s, ConnectionMade(p, transport)))
  {
    var t := Step(cfg, s, ConnectionMade(p, transport));
    if p !in s.protocols {
      assert |s.conns| !in s.clients;
      assert forall c :: c in t.clients <==> c in s.clients || c == |s.conns|;
    }
  }

  lemma StepKeepsRegistry(cfg: Config, s: State, e: Event)
    requires RegistryExact(s) && ProtocolsKnow(s)
    ensures RegistryExact(Step(cfg, s, e)) && ProtocolsKnow(Step(cfg, s, e))
  {
    if Handled(s, e).Some? {
      HandledChanges(cfg, s, e);
    } else if IsRouting(e) {
      RoutingKeeps(cfg, s, e);
    } else if IsRecords(e) {
      RecordsKeep(cfg, s, e);
    } else if e.ServerDisconnects? {
      DisconnectAllKeeps(s, s.clients);
    } else if e.ConnectionMade? {
      MadeKeepsRegistry(cfg, s, e.protocol, e.transport);
    } else if e.ConnectionLost? && e.protocol in s.protocols && Live(s, s.protocols[e.protocol]) {
      LostChanges(cfg, s, e.protocol);
      RemoveDistinct(s.clients, s.protocols[e.protocol]);
    }
  }

  /** In every run the registry holds each live connection exactly once, however often connection_made is called again. */
  lemma {:induction false} RegistryIsExact(cfg: Config, events: seq<Event>)
    ensures RegistryExact(Run(cfg, events)) && ProtocolsKnow(Run(cfg, events))
    decreases |events|
  {
    if events != [] {
      RegistryIsExact(cfg, events[..|events| - 1]);
      StepKeepsRegistry(cfg, Run(cfg, events[..|events| - 1]), events[|events| - 1]);
    }
  }

  // ---- one connection for each protocol ----

  /** The transport of the last connection_made of a protocol. */
  function LastTransport(events: seq<Event>, p: nat): Option<nat> {
    if events == [] then None
    else
      var last := events[|events| - 1];
      if last.ConnectionMade? && last.protocol == p then Some(last.transport) else LastTransport(events[..|events| - 1], p)
  }

  /** The connections of t are those of s, over the same transports and of the same protocols. */
  ghost predicate SameTransports(s: State, t: State) {
    && t.protocols == s.protocols && |t.conns| == |s.conns|
    && forall c :: 0 <= c < |s.conns| ==> t.conns[c].transport == s.conns[c].transport
  }

  lemma OneConnKeepsTransports(s: State, t: State, c: nat, conn: Conn)
    requires OnlyConn(s, t, c, conn) && conn.transport == s.conns[c].transport
    ensures SameTransports(s, t)
  {
  }

  lemma LoginKeepsTransports(cfg: Config, s: State, e: Event)
    requires Handled(s, e).Some? && (e.Authenticating? || e.Binding?)
    ensures SameTransports(s, Step(cfg, s, e))
  {
    if Live(s, e.conn) {
      match e {
        case Authenticating(c, name, newResource, authorized) =>
          AuthChanges(cfg, s, c, name, newResource, authorized);
          OneConnKeepsTransports(s, HandleAuth(cfg, s, c, name, newResource, authorized), c,
                                 AuthConn(cfg, s.conns[c], name, newResource, authorized));
        case Binding(c, boundResource) =>
          BindChanges(cfg, s, c, boundResource);
          OneConnKeepsTransports(s, HandleBind(cfg, s, c, boundResource), c, BindConn(cfg, s.conns[c], boundResource));
        case _ =>
      }
    }
  }

  lemma StateKeepsTransports(cfg: Config, s: State, e: Event)
    requires Handled(s, e).Some? && (e.OpeningSession? || e.Unavailable? || e.StreamClosed?)
    ensures SameTransports(s, Step(cfg, s, e))
  {
    match e {
      case OpeningSession(c) => SetStateChanges(s, c, READY);
      case Unavailable(c) => SetStateChanges(s, c, DISCONNECT);
      case StreamClosed(c) => SetStateChanges(Send(s, c, Answer("</stream:stream>")), c, DISCONNECT);
      case _ =>
    }
  }

  lemma StreamKeepsTransports(cfg: Config, s: State, e: Event)
    requires e.StreamOpened? || e.StartTlsReceived? || e.StartTlsRuns?
    ensures SameTransports(s, Step(cfg, s, e))
  {
    if e.StreamOpened? && Live(s, e.conn) {
      ConnectChanges(s, e.conn, e.namespaced, e.deviceClass);
    }
  }

  lemma StepKeepsTransports(cfg: Config, s: State, e: Event)
    requires !e.ConnectionMade?
    ensures SameTransports(s, Step(cfg, s, e))
  {
    if e.StreamOpened? || e.StartTlsReceived? || e.StartTlsRuns? {
      StreamKeepsTransports(cfg, s, e);
    } else if Handled(s, e).Some? {
      if e.Authenticating? || e.Binding? { LoginKeepsTransports(cfg, s, e); } else { StateKeepsTransports(cfg, s, e); }
    } else if IsRouting(e) {
      RoutingKeeps(cfg, s, e);
    } else if IsRecords(e) {
      RecordsKeep(cfg, s, e);
    } else if e.ServerDisconnects? {
      DisconnectAllKeeps(s, s.clients);
    } else if e.ConnectionLost? && e.protocol in s.protocols && Live(s, s.protocols[e.protocol]) {
      LostChanges(cfg, s, e.protocol);
    }
  }

  /** The protocol has a connection exactly if it was made, and that connection uses the transport given last. */
  predicate UsesTransport(s: State, p: nat, transport: Option<nat>) {
    if p in s.protocols then s.protocols[p] < |s.conns| && transport == Some(s.conns[s.protocols[p]].transport)
    else transport == None
  }

  lemma MadeUsesTransport(cfg: Config, s: State, e: Event, p: nat, transport: Option<nat>)
    requires ProtocolsKnow(s) && UsesTransport(s, p, transport) && e.ConnectionMade?
    ensures UsesTransport(Step(cfg, s, e), p, if e.protocol == p then Some(e.transport) else transport)
  {
  }

  /**
   connection_made may be called any number of times for a protocol, as STARTTLS does: in every run each
   protocol it was called for has one connection, over the transport it was last called with, and there
   are no other connections.
   */
  lemma {:induction false} OneConnectionPerProtocol(cfg: Config, events: seq<Event>)
    ensures var s := Run(cfg, events);
            && |s.conns| == |s.protocols|
            && forall p: nat :: UsesTransport(s, p, LastTransport(events, p))
    decreases |events|
  {
    if events != [] {
      var n := |events| - 1;
      var s := Run(cfg, events[..n]);
      OneConnectionPerProtocol(cfg, events[..n]);
      RegistryIsExact(cfg, events[..n]);
      if events[n].ConnectionMade? {
        forall p: nat ensures UsesTransport(Run(cfg, events), p, LastTransport(events, p)) {
          MadeUsesTransport(cfg, s, events[n], p, LastTransport(events[..n], p));
        }
      } else {
        StepKeepsTransports(cfg, s, events[n]);
        forall p: nat ensures UsesTransport(Run(cfg, events), p, LastTransport(events, p)) {
          assert UsesTransport(s, p, LastTransport(events[..n], p));
        }
      }
    }
  }

  // ---- STARTTLS ----

  function Proceeds(sent: seq<Sent>, c: nat): nat {
    if sent == [] then 0
    else
      var last := sent[|sent| - 1];
      Proceeds(sent[..|sent| - 1], c) + if last == Sent(c, Proceed) then 1 else 0
  }

  lemma ProceedsNext(sent: seq<Sent>, x: Sent, c: nat)
    ensures Proceeds(sent + [x], c) == Proceeds(sent, c) + if x == Sent(c, Proceed) then 1 else 0
  {
    assert (sent + [x])[..|sent|] == sent;
  }

  ghost predicate NoProceed(sent: seq<Sent>) {
    forall i :: 0 <= i < |sent| ==> sent[i].stanza != Proceed
  }

  lemma {:induction false} ProceedsAppend(sent: seq<Sent>, more: seq<Sent>, c: nat)
    requires NoProceed(more)
    ensures Proceeds(sent + more, c) == Proceeds(sent, c)
    decreases |more|
  {
    if more == [] {
      assert sent + more == sent;
    } else {
      var n := |more| - 1;
      ProceedsAppend(sent, more[..n], c);
      ProceedsNext(sent + more[..n], more[n], c);
      assert sent + more[..n] + [more[n]] == sent + more;
    }
  }

  /** A proceed has been sent to a connection exactly once if it was upgraded, and never before that. */
  ghost predicate OneProceed(s: State) {
    forall c: nat :: Proceeds(s.sent, c) == if Upgraded(s, c) then 1 else 0
  }

  predicate Upgraded(s: State, c: nat) {
    c < |s.conns| && s.conns[c].tlsUpgraded
  }

  /** Stanzas are only added to those sent, and none of them is a proceed. */
  ghost predicate AddsNoProceed(s: State, t: State) {
    && |s.sent| <= |t.sent| && t.sent[..|s.sent|] == s.sent
    && forall i :: |s.sent| <= i < |t.sent| ==> t.sent[i].stanza != Proceed
  }

  lemma {:induction false} ForwardHasNoProceed(
    cfg: Config, s: State, c: nat, clients: seq<nat>, to: Option<string>, route: Route, stanza: Stanza)
    requires stanza != Proceed
    ensures NoProceed(Forward(cfg, s, c, clients, to, route, stanza))
    decreases |clients|
  {
    if clients != [] {
      ForwardHasNoProceed(cfg, s, c, clients[1..], to, route, stanza);
    }
  }

  lemma ControlAddsNoProceed(cfg: Config, s: State, c: nat, iq: Iq)
    requires c < |s.conns|
    ensures AddsNoProceed(s, HandleControl(cfg, s, c, iq))
  {
    var t := if iq.kind == Some("set") && iq.comSf && iq.to == Some("rl.ecorobot.net")
             then Send(s, c, Answer("result " + iq.id)) else s;
    ForwardHasNoProceed(cfg, t, c, t.clients, iq.to, ToControl, Forwarded(Stamped(s, c, iq)));
  }

  lemma PingAddsNoProceed(cfg: Config, s: State, c: nat, iq: Iq)
    requires c < |s.conns|
    ensures AddsNoProceed(s, HandlePing(cfg, s, c, iq))
  {
    ForwardHasNoProceed(cfg, s, c, s.clients, iq.to, ToPing, Forwarded(Stamped(s, c, iq)));
  }

  lemma RoutingAddsNoProceed(cfg: Config, s: State, e: Event)
    requires IsRouting(e)
    ensures AddsNoProceed(s, Step(cfg, s, e))
  {
    if Live(s, e.conn) {
      match e {
        case Control(c, iq) => ControlAddsNoProceed(cfg, s, c, iq);
        case Ping(c, iq) => PingAddsNoProceed(cfg, s, c, iq);
        case Result(c, iq) => ResultAddsNoProceed(cfg, s, c, iq);
      }
    }
  }

  lemma ResultAddsNoProceed(cfg: Config, s: State, c: nat, iq: Iq)
    requires c < |s.conns|
    ensures AddsNoProceed(s, HandleResult(cfg, s, c, iq))
  {
    if !iq.errno103 {
      var stamped := Stamped(s, c, iq);
      ForwardHasNoProceed(cfg, s, c, s.clients, iq.to, ToAll, Broadcast(stamped));
      var t := if s.conns[c].kind == Bot && iq.to == Some("de.ecorobot.net")
               then s.(sent := s.sent + Forward(cfg, s, c, s.clients, iq.to, ToAll, Broadcast(stamped))) else s;
      ForwardHasNoProceed(cfg, t, c, t.clients, iq.to, ToResult, Forwarded(stamped));
    }
  }

  lemma AdmitAddsNoProceed(s: State, c: nat)
    requires c < |s.conns|
    ensures AddsNoProceed(s, AdmitBot(s, c)) && AddsNoProceed(s, AdmitController(s, c))
  {
  }

  lemma AuthAddsNoProceed(cfg: Config, s: State, c: nat, name: string, newResource: Option<string>, authorized: bool)
    requires c < |s.conns|
    ensures AddsNoProceed(s, HandleAuth(cfg, s, c, name, newResource, authorized))
  {
    var conn := s.conns[c].(uid := name, resource := if newResource.Some? then newResource else s.conns[c].resource);
    AdmitAddsNoProceed(Put(s, c, conn), c);
  }

  lemma BindAddsNoProceed(cfg: Config, s: State, c: nat, boundResource: Option<Option<string>>)
    requires c < |s.conns|
    ensures AddsNoProceed(s, HandleBind(cfg, s, c, boundResource))
  {
  }

  lemma ConnectAddsNoProceed(s: State, c: nat, namespaced: bool, deviceClass: Option<string>)
    requires c < |s.conns|
    ensures AddsNoProceed(s, HandleConnect(s, c, namespaced, deviceClass))
  {
  }

  lemma StateAddsNoProceed(cfg: Config, s: State, e: Event)
    requires Handled(s, e).Some? && (e.Unavailable? || e.OpeningSession? || e.StreamClosed?)
    ensures AddsNoProceed(s, Step(cfg, s, e))
  {
    match e {
      case Unavailable(c) => SetStateChanges(s, c, DISCONNECT);
      case OpeningSession(c) => SetStateChanges(s, c, READY);
      case StreamClosed(c) => SetStateChanges(Send(s, c, Answer("</stream:stream>")), c, DISCONNECT);
      case _ =>
    }
  }

  lemma HandledAddsNoProceed(cfg: Config, s: State, e: Event)
    requires Handled(s, e).Some? && !e.StartTlsRuns?
    ensures AddsNoProceed(s, Step(cfg, s, e))
  {
    match e {
      case StreamOpened(c, namespaced, deviceClass) => ConnectAddsNoProceed(s, c, namespaced, deviceClass);
      case Authenticating(c, name, newResource, authorized) =>
        AuthAddsNoProceed(cfg, s, c, name, newResource, authorized);
      case Binding(c, boundResource) => BindAddsNoProceed(cfg, s, c, boundResource);
      case StartTlsReceived(_) =>
      case _ => StateAddsNoProceed(cfg, s, e);
    }
  }

  lemma StepAddsNoProceed(cfg: Config, s: State, e: Event)
    requires !e.StartTlsRuns?
    ensures AddsNoProceed(s, Step(cfg, s, e))
  {
    if Handled(s, e).Some? {
      HandledAddsNoProceed(cfg, s, e);
    } else if IsRouting(e) {
      RoutingAddsNoProceed(cfg, s, e);
    } else if IsRecords(e) {
      RecordsKeep(cfg, s, e);
    } else if e.ServerDisconnects? {
      DisconnectAllKeeps(s, s.clients);
    } else if e.ConnectionLost? && e.protocol in s.protocols && Live(s, s.protocols[e.protocol]) {
      LostChanges(cfg, s, e.protocol);
    }
  }

  /** Nothing but the coroutine upgrades a connection. */
  lemma StepKeepsTls(cfg: Config, s: State, e: Event, c: nat)
    requires !e.StartTlsRuns? && c < |Step(cfg, s, e).conns|
    ensures Step(cfg, s, e).conns[c].tlsUpgraded == (c < |s.conns| && s.conns[c].tlsUpgraded)
  {
    if Handled(s, e).Some? {
      HandledChanges(cfg, s, e);
    } else if IsRouting(e) {
      RoutingKeeps(cfg, s, e);
    } else if IsRecords(e) {
      RecordsKeep(cfg, s, e);
    } else if e.ServerDisconnects? {
      DisconnectAllKeeps(s, s.clients);
    } else if e.ConnectionLost? && e.protocol in s.protocols && Live(s, s.protocols[e.protocol]) {
      LostChanges(cfg, s, e.protocol);
    }
  }

  lemma TlsRun(cfg: Config, s: State, d: nat)
    ensures var t := Step(cfg, s, StartTlsRuns(d));
            var upgrades := d < |s.conns| && s.conns[d].scheduled > 0 && !s.conns[d].tlsUpgraded;
            && t.sent == (if upgrades then s.sent + [Sent(d, Proceed)] else s.sent)
            && |t.conns| == |s.conns|
            && forall c :: 0 <= c < |s.conns| ==> t.conns[c].tlsUpgraded == (s.conns[c].tlsUpgraded || (c == d && upgrades))
  {
  }

  lemma TlsRunKeepsOneProceed(cfg: Config, s: State, d: nat, c: nat)
    requires OneProceed(s)
    ensures var t := Step(cfg, s, StartTlsRuns(d));
            Proceeds(t.sent, c) == if Upgraded(t, c) then 1 else 0
  {
    TlsRun(cfg, s, d);
    assert Proceeds(s.sent, c) == if Upgraded(s, c) then 1 else 0;
    ProceedsNext(s.sent, Sent(d, Proceed), c);
  }

  lemma AddingNoProceed(sent: seq<Sent>, after: seq<Sent>, c: nat)
    requires |sent| <= |after| && after[..|sent|] == sent
    requires forall i :: |sent| <= i < |after| ==> after[i].stanza != Proceed
    ensures Proceeds(after, c) == Proceeds(sent, c)
  {
    ProceedsAppend(sent, after[|sent|..], c);
    assert sent + after[|sent|..] == after;
  }

  lemma OtherKeepsUpgraded(cfg: Config, s: State, e: Event, c: nat)
    requires !e.StartTlsRuns?
    ensures Upgraded(Step(cfg, s, e), c) == Upgraded(s, c)
  {
    if c < |s.conns| { StepEvolves(cfg, s, e, c); }
    if c < |Step(cfg, s, e).conns| { StepKeepsTls(cfg, s, e, c); }
  }

  lemma OtherKeepsOneProceed(cfg: Config, s: State, e: Event, c: nat)
    requires OneProceed(s) && !e.StartTlsRuns?
    ensures Proceeds(Step(cfg, s, e).sent, c) == if Upgraded(Step(cfg, s, e), c) then 1 else 0
  {
    StepAddsNoProceed(cfg, s, e);
    AddingNoProceed(s.sent, Step(cfg, s, e).sent, c);
    OtherKeepsUpgraded(cfg, s, e, c);
    assert Proceeds(s.sent, c) == if Upgraded(s, c) then 1 else 0;
  }

  lemma StepKeepsOneProceed(cfg: Config, s: State, e: Event)
    requires OneProceed(s)
    ensures OneProceed(Step(cfg, s, e))
  {
    var t := Step(cfg, s, e);
    forall c: nat ensures Proceeds(t.sent, c) == if Upgraded(t, c) then 1 else 0 {
      if e.StartTlsRuns? {
        TlsRunKeepsOneProceed(cfg, s, e.conn, c);
      } else {
        OtherKeepsOneProceed(cfg, s, e, c);
      }
    }
  }

  /** In every run each connection is sent at most one proceed, however many starttls coroutines were scheduled. */
  lemma {:induction false} AtMostOneProceed(cfg: Config, events: seq<Event>)
    ensures OneProceed(Run(cfg, events))
    ensures forall c: nat :: Proceeds(Run(cfg, events).sent, c) <= 1
    decreases |events|
  {
    if events != [] {
      AtMostOneProceed(cfg, events[..|events| - 1]);
      StepKeepsOneProceed(cfg, Run(cfg, events[..|events| - 1]), events[|events| - 1]);
    }
  }

  /** And it is sent one: a starttls stanza on a connection that is not upgraded schedules a coroutine, which upgrades it and sends the proceed. */
  lemma StarttlsProceeds(cfg: Config, s: State, c: nat)
    requires Live(s, c) && !s.conns[c].tlsUpgraded
    ensures var t := Step(cfg, Step(cfg, s, StartTlsReceived(c)), StartTlsRuns(c));
            && t.sent == s.sent + [Sent(c, Proceed)]
            && t.conns == s.conns[c := s.conns[c].(tlsUpgraded := true)]
  {
    var u := Step(cfg, s, StartTlsReceived(c));
    assert u.conns[c] == s.conns[c].(scheduled := s.conns[c].scheduled + 1);
    assert s.conns[c].(scheduled := s.conns[c].scheduled + 1 - 1) == s.conns[c];
  }

  /** A connection that is lost, unavailable or closes its stream is in state DISCONNECT then. */
  lemma LeavingDisconnects(cfg: Config, s: State, e: Event, c: nat)
    requires Live(s, c) && s.conns[c].state <= DISCONNECT
    requires || e == Unavailable(c) || e == StreamClosed(c)
             || (e.ConnectionLost? && e.protocol in s.protocols && s.protocols[e.protocol] == c)
    ensures c < |Step(cfg, s, e).conns| && Step(cfg, s, e).conns[c].state == DISCONNECT
  {
    if e.ConnectionLost? {
      LostChanges(cfg, s, e.protocol);
    } else if e.Unavailable? {
      SetStateChanges(s, c, DISCONNECT);
    } else {
      SetStateChanges(Send(s, c, Answer("</stream:stream>")), c, DISCONNECT);
    }
  }
}
