/**
 The XMPP sessions of bumper/xmpp/xmpp.py as a state machine: every handler is a step that works on one
 connection, the registry of connections, the connection flags in the database and the stanzas sent.
 */
module Xmpp {
  import opened Results
  import opened Text

  const IDLE: nat := 0
  const CONNECT: nat := 1
  const INIT: nat := 2
  const BIND: nat := 3
  const READY: nat := 4
  const DISCONNECT: nat := 5

  datatype Kind = Unknown | Bot | Controller

  /**
   One XMPPAsyncClient.  The last three attributes are not in the source: whether the connection has
   been lost, how many starttls coroutines wait to run, and the uids it has bound under.
   */
  datatype Conn = Conn(
    state: nat, kind: Kind, uid: string, devclass: string, resource: Option<string>, jid: string,
    tlsUpgraded: bool, transport: nat, lost: bool, scheduled: nat, boundAs: set<string>)

  /** An iq stanza, as far as the handlers look at it. */
  datatype Iq = Iq(
    id: string, sender: Option<string>, to: Option<string>, kind: Option<string>,
    roster: bool, discovery: bool, comSf: bool, admin: bool, errno103: bool, adminUser: Option<string>, body: string)

  datatype Stanza =
    | Proceed
    | Forwarded(iq: Iq)
    | Broadcast(iq: Iq)
    | Answer(text: string)

  /** A stanza written to a connection. */
  datatype Sent = Sent(receiver: nat, stanza: Stanza)

  /** The settings, and str.lower. */
  datatype Config = Config(serverId: string, useAuth: bool, lower: string -> string)

  datatype State = State(
    conns: seq<Conn>, protocols: map<nat, nat>, clients: seq<nat>,
    botFlags: map<string, bool>, clientFlags: map<string, bool>, sent: seq<Sent>)

  const INITIAL := State([], map[], [], map[], map[], [])

  datatype Event =
    | ConnectionMade(protocol: nat, transport: nat)
    | ConnectionLost(protocol: nat)
    | StreamOpened(conn: nat, namespaced: bool, deviceClass: Option<string>)
    | Authenticating(conn: nat, name: string, newResource: Option<string>, authorized: bool)
    | Binding(conn: nat, boundResource: Option<Option<string>>)
    | OpeningSession(conn: nat)
    | Unavailable(conn: nat)
    | StreamClosed(conn: nat)
    | StartTlsReceived(conn: nat)
    | StartTlsRuns(conn: nat)
    | Control(conn: nat, iq: Iq)
    | Ping(conn: nat, iq: Iq)
    | Result(conn: nat, iq: Iq)
    | ServerDisconnects
    | BotAdded(did: string)
    | BotRemoved(did: string)
    | ClientAdded(userid: string)
    | ClientRemoved(userid: string)

  predicate IsBot(c: Conn) {
    c.devclass != ""
  }

  // ---- pieces of the handlers ----

  function Send(s: State, c: nat, stanza: Stanza): State {
    s.(sent := s.sent + [Sent(c, stanza)])
  }

  function Put(s: State, c: nat, conn: Conn): State
    requires c < |s.conns|
  {
    s.(conns := s.conns[c := conn])
  }

  /** set_xmpp of the record found under the connection's uid, if there is one. */
  function Flag(s: State, c: nat, value: bool): State
    requires c < |s.conns|
  {
    var uid := s.conns[c].uid;
    if IsBot(s.conns[c]) then
      if uid in s.botFlags then s.(botFlags := s.botFlags[uid := value]) else s
    else
      if uid in s.clientFlags then s.(clientFlags := s.clientFlags[uid := value]) else s
  }

  /** set_state: a smaller state is refused, and DISCONNECT clears the flag. */
  function SetState(s: State, c: nat, state: nat): State
    requires c < |s.conns|
  {
    if s.conns[c].state > state then s
    else
      var t := Put(s, c, s.conns[c].(state := state));
      if state == DISCONNECT then Flag(t, c, false) else t
  }

  function Remove(clients: seq<nat>, c: nat): seq<nat> {
    if clients == [] then []
    else if clients[0] == c then clients[1..]
    else [clients[0]] + Remove(clients[1..], c)
  }

  /** Adding a record that is there already changes nothing. */
  function AddRecord(flags: map<string, bool>, key: string): map<string, bool> {
    if key in flags then flags else flags[key := false]
  }

  function Str(s: Option<string>): string {
    if s.Some? then s.value else "None"
  }

  // ---- routing ----

  /** needle in hay. */
  predicate In(needle: string, hay: string) {
    needle <= hay || (hay != "" && In(needle, hay[1..]))
  }

  predicate Occurs(needle: string, hay: string, i: nat) {
    i + |needle| <= |hay| && hay[i..i + |needle|] == needle
  }

  lemma {:induction false} InExactlyWhenSomewhere(needle: string, hay: string)
    ensures In(needle, hay) <==> exists i: nat :: Occurs(needle, hay, i)
  {
    if needle <= hay {
      assert Occurs(needle, hay, 0);
    } else if hay != "" {
      InExactlyWhenSomewhere(needle, hay[1..]);
      if i: nat :| Occurs(needle, hay[1..], i) {
        assert Occurs(needle, hay, i + 1);
      }
      if i: nat :| Occurs(needle, hay, i) {
        assert i != 0;
        assert Occurs(needle, hay[1..], i - 1);
      }
    }
  }

  predicate MentionsUid(cfg: Config, c: Conn, to: Option<string>) {
    to.Some? && In(cfg.lower(c.uid), cfg.lower(to.value))
  }

  /** Everybody but connections with the sender's own jid, in session. */
  predicate Candidate(s: State, c: nat, other: nat) {
    c < |s.conns| && other < |s.conns| && s.conns[other].jid != s.conns[c].jid && s.conns[other].state == READY
  }

  predicate TakesControl(cfg: Config, s: State, c: nat, other: nat, to: Option<string>) {
    Candidate(s, c, other) && s.conns[other].kind == Bot && MentionsUid(cfg, s.conns[other], to)
  }

  predicate TakesPing(cfg: Config, s: State, c: nat, other: nat, to: Option<string>) {
    Candidate(s, c, other) && MentionsUid(cfg, s.conns[other], to)
  }

  /** Results are addressed to the user at ecouser.net, whatever domain they name. */
  function ResultAddress(to: Option<string>): Option<string> {
    if to.Some? && Has(to.value, '@') then Some(Split(to.value, '@')[0] + "@ecouser.net") else to
  }

  predicate TakesResult(cfg: Config, s: State, c: nat, other: nat, to: Option<string>) {
    && Candidate(s, c, other)
    && (to == None || !Has(to.value, '@') || MentionsUid(cfg, s.conns[other], ResultAddress(to)))
  }

  datatype Route = ToControl | ToPing | ToResult | ToAll

  predicate Takes(cfg: Config, s: State, c: nat, other: nat, to: Option<string>, route: Route) {
    match route
    case ToControl => TakesControl(cfg, s, c, other, to)
    case ToPing => TakesPing(cfg, s, c, other, to)
    case ToResult => TakesResult(cfg, s, c, other, to)
    case ToAll => true
  }

  /** The loop over the clients: the stanzas it sends, in the order of the registry. */
  function Forward(cfg: Config, s: State, c: nat, clients: seq<nat>, to: Option<string>, route: Route, stanza: Stanza): seq<Sent> {
    if clients == [] then []
    else
      (if Takes(cfg, s, c, clients[0], to, route) then [Sent(clients[0], stanza)] else [])
      + Forward(cfg, s, c, clients[1..], to, route, stanza)
  }

  /** The stanza with the sender's jid filled in where it has none. */
  function Stamped(s: State, c: nat, iq: Iq): Iq
    requires c < |s.conns|
  {
    if iq.sender == None then iq.(sender := Some(s.conns[c].jid)) else iq
  }

  function NotImplemented(iq: Iq): Stanza {
    Answer("feature-not-implemented " + iq.id)
  }

  /** Whether the control handler gets as far as its loop. */
  predicate ControlIsForwarded(s: State, c: nat, iq: Iq)
    requires c < |s.conns|
  {
    !iq.roster && !iq.discovery && !(iq.admin && s.conns[c].kind == Bot)
  }

  function HandleControl(cfg: Config, s: State, c: nat, iq: Iq): State
    requires c < |s.conns|
  {
    if iq.roster || iq.discovery then Send(s, c, NotImplemented(iq))
    else
      var t := if iq.kind == Some("set") && iq.comSf && iq.to == Some("rl.ecorobot.net")
               then Send(s, c, Answer("result " + iq.id)) else s;
      if !ControlIsForwarded(s, c, iq) then t
      else t.(sent := t.sent + Forward(cfg, t, c, t.clients, iq.to, ToControl, Forwarded(Stamped(s, c, iq))))
  }

  /** Whether a ping is for the server itself. */
  predicate PingsServer(iq: Iq) {
    iq.to.Some? && !Has(iq.to.value, '@')
  }

  function HandlePing(cfg: Config, s: State, c: nat, iq: Iq): State
    requires c < |s.conns|
  {
    if PingsServer(iq) then Send(s, c, Answer("result " + iq.id + " from " + iq.to.value))
    else s.(sent := s.sent + Forward(cfg, s, c, s.clients, iq.to, ToPing, Forwarded(Stamped(s, c, iq))))
  }

  /** The prefixes of bumper users, which are never added to a bot. */
  predicate OwnUser(user: string) {
    "fuid_" <= user || "fusername_" <= user
  }

  function HandleResult(cfg: Config, s: State, c: nat, iq: Iq): State
    requires c < |s.conns|
  {
    if iq.errno103 then
      if s.conns[c].kind == Bot && iq.to.Some? && iq.adminUser.Some? && !OwnUser(iq.adminUser.value) && !cfg.useAuth then
        var user := Split(iq.to.value, '/')[0];
        Send(Send(Send(s, c, Answer("AddUser " + user)), c, Answer("SetAC " + user)), c, Answer("GetUserInfo"))
      else s
    else
      var stamped := Stamped(s, c, iq);
      var t := if s.conns[c].kind == Bot && iq.to == Some("de.ecorobot.net")
               then s.(sent := s.sent + Forward(cfg, s, c, s.clients, iq.to, ToAll, Broadcast(stamped))) else s;
      t.(sent := t.sent + Forward(cfg, t, c, t.clients, iq.to, ToResult, Forwarded(stamped)))
  }

  // ---- steps ----

  function NewConn(transport: nat): Conn {
    Conn(CONNECT, Unknown, "", "", Some(""), "", false, transport, false, 0, {})
  }

  /** The stream header; the device class is only taken from the first one. */
  function HandleConnect(s: State, c: nat, namespaced: bool, deviceClass: Option<string>): State
    requires c < |s.conns|
  {
    var conn := s.conns[c];
    if conn.state == CONNECT then
      if namespaced then
        var t := if deviceClass.Some? then Put(s, c, conn.(devclass := deviceClass.value)) else s;
        Send(Send(t, c, Answer("stream")), c, Answer(if conn.tlsUpgraded then "mechanisms" else "starttls mechanisms"))
      else Send(s, c, Answer("</stream>"))
    else if conn.state == INIT && namespaced then Send(Send(s, c, Answer("stream")), c, Answer("bind session"))
    else s
  }

  /** A client with a device class is a bot, and always welcome. */
  function AdmitBot(s: State, c: nat): State
    requires c < |s.conns|
  {
    var t := Put(s, c, s.conns[c].(kind := Bot)).(botFlags := AddRecord(s.botFlags, s.conns[c].uid));
    SetState(Send(t, c, Answer("success")), c, INIT)
  }

  function AdmitController(s: State, c: nat): State
    requires c < |s.conns|
  {
    var t := Put(s, c, s.conns[c].(kind := Controller)).(clientFlags := AddRecord(s.clientFlags, s.conns[c].uid));
    Send(SetState(t, c, INIT), c, Answer("success"))
  }

  function HandleAuth(cfg: Config, s: State, c: nat, name: string, newResource: Option<string>, authorized: bool): State
    requires c < |s.conns|
  {
    var conn := s.conns[c].(uid := name, resource := if newResource.Some? then newResource else s.conns[c].resource);
    var t := Put(s, c, conn);
    if IsBot(conn) then AdmitBot(t, c)
    else if (authorized || !cfg.useAuth) && conn.resource.Some? then AdmitController(t, c)
    else Send(t, c, Answer("failure"))
  }

  /** What binding makes of the client: a jid, and the resource where the stanza brings one. */
  function BoundConn(cfg: Config, conn: Conn, boundResource: Option<Option<string>>): Conn {
    var resource := if !IsBot(conn) && boundResource.Some? then boundResource.value else conn.resource;
    var jid := if IsBot(conn) then conn.uid + "@" + conn.devclass + ".ecorobot.net/atom"
               else if boundResource.Some? then conn.uid + "@" + cfg.serverId + "/" + Str(resource)
               else conn.uid + "@" + cfg.serverId;
    conn.(resource := resource, jid := jid, boundAs := conn.boundAs + {conn.uid})
  }

  function HandleBind(cfg: Config, s: State, c: nat, boundResource: Option<Option<string>>): State
    requires c < |s.conns|
  {
    var conn := BoundConn(cfg, s.conns[c], boundResource);
    Send(SetState(Put(Flag(s, c, true), c, conn), c, BIND), c, Answer("bind " + conn.jid))
  }

  /** disconnect() of every registered client, by the server's own shutdown. */
  function DisconnectAll(s: State, clients: seq<nat>): State
    decreases |clients|
  {
    if clients == [] then s
    else DisconnectAll(if clients[0] < |s.conns| then Flag(s, clients[0], false) else s, clients[1..])
  }

  /** Data arrives on connections that have not been lost. */
  predicate Live(s: State, c: nat) {
    c < |s.conns| && !s.conns[c].lost
  }

  function Step(cfg: Config, s: State, e: Event): State {
    match e
    case ConnectionMade(p, transport) =>
      if p in s.protocols then
        if s.protocols[p] < |s.conns| then Put(s, s.protocols[p], s.conns[s.protocols[p]].(transport := transport)) else s
      else
        s.(conns := s.conns + [NewConn(transport)], clients := s.clients + [|s.conns|],
           protocols := s.protocols[p := |s.conns|])
    case ConnectionLost(p) =>
      if p in s.protocols && Live(s, s.protocols[p]) then
        var c := s.protocols[p];
        SetState(Put(s, c, s.conns[c].(lost := true)).(clients := Remove(s.clients, c)), c, DISCONNECT)
      else s
    case StreamOpened(c, namespaced, deviceClass) =>
      if Live(s, c) then HandleConnect(s, c, namespaced, deviceClass) else s
    case Authenticating(c, name, newResource, authorized) =>
      if Live(s, c) then HandleAuth(cfg, s, c, name, newResource, authorized) else s
    case Binding(c, boundResource) => if Live(s, c) then HandleBind(cfg, s, c, boundResource) else s
    case OpeningSession(c) => if Live(s, c) then Send(SetState(s, c, READY), c, Answer("result")) else s
    case Unavailable(c) => if Live(s, c) then SetState(s, c, DISCONNECT) else s
    case StreamClosed(c) => if Live(s, c) then SetState(Send(s, c, Answer("</stream:stream>")), c, DISCONNECT) else s
    case StartTlsReceived(c) =>
      if Live(s, c) && !s.conns[c].tlsUpgraded then Put(s, c, s.conns[c].(scheduled := s.conns[c].scheduled + 1)) else s
    case StartTlsRuns(c) =>
      if c < |s.conns| && s.conns[c].scheduled > 0 then
        var conn := s.conns[c].(scheduled := s.conns[c].scheduled - 1);
        if conn.tlsUpgraded then Put(s, c, conn) else Send(Put(s, c, conn.(tlsUpgraded := true)), c, Proceed)
      else s
    case Control(c, iq) => if Live(s, c) && s.conns[c].kind != Bot then HandleControl(cfg, s, c, iq) else s
    case Ping(c, iq) => if Live(s, c) then HandlePing(cfg, s, c, iq) else s
    case Result(c, iq) => if Live(s, c) then HandleResult(cfg, s, c, iq) else s
    case ServerDisconnects => DisconnectAll(s, s.clients)
    case BotAdded(did) => s.(botFlags := AddRecord(s.botFlags, did))
    case BotRemoved(did) => s.(botFlags := s.botFlags - {did})
    case ClientAdded(userid) => s.(clientFlags := AddRecord(s.clientFlags, userid))
    case ClientRemoved(userid) => s.(clientFlags := s.clientFlags - {userid})
  }

  function Run(cfg: Config, events: seq<Event>): State {
    if events == [] then INITIAL else Step(cfg, Run(cfg, events[..|events| - 1]), events[|events| - 1])
  }
}
