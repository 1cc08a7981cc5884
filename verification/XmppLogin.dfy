/**
 From logging in to being reached: the address a connection is given, what a login makes of it, and that
 commands and their results then find their way between a bot and a user.
 */
module XmppLogin {
  import opened Results
  import opened Text
  import opened Xmpp
  import opened XmppSessions
  import opened XmppFlags
  import opened XmppRouting

  // ---- addresses ----

  /** The address of a connection that binds. */
  function Address(cfg: Config, conn: Conn, boundResource: Option<Option<string>>): string {
    if conn.devclass != "" then conn.uid + "@" + conn.devclass + ".ecorobot.net/atom"
    else
      match boundResource
      case None => conn.uid + "@" + cfg.serverId
      case Some(None) => conn.uid + "@" + cfg.serverId + "/None"
      case Some(Some(resource)) => conn.uid + "@" + cfg.serverId + "/" + resource
  }

  /** The address the last bind of a connection gave it. */
  function LastAddress(cfg: Config, events: seq<Event>, c: nat): string {
    if events == [] then ""
    else
      var before, last := events[..|events| - 1], events[|events| - 1];
      if last.Binding? && last.conn == c && Live(Run(cfg, before), c) then
        Address(cfg, Run(cfg, before).conns[c], last.boundResource)
      else LastAddress(cfg, before, c)
  }

  /** A bind gives the connection its address, and answers with it. */
  lemma BindGivesAddress(cfg: Config, s: State, c: nat, boundResource: Option<Option<string>>)
    requires Live(s, c)
    ensures var t := Step(cfg, s, Binding(c, boundResource));
            && t.conns == s.conns[c := t.conns[c]] && t.conns[c].jid == Address(cfg, s.conns[c], boundResource)
            && t.sent == s.sent + [Sent(c, Answer("bind " + Address(cfg, s.conns[c], boundResource)))]
  {
    BindChanges(cfg, s, c, boundResource);
    BindWrites(cfg, s, c, boundResource);
    if boundResource == Some(None) { assert "/" + "None" == "/None"; }
  }

  lemma BindWrites(cfg: Config, s: State, c: nat, boundResource: Option<Option<string>>)
    requires c < |s.conns|
    ensures HandleBind(cfg, s, c, boundResource).sent
            == s.sent + [Sent(c, Answer("bind " + BoundConn(cfg, s.conns[c], boundResource).jid))]
  {
    SetStateChanges(Put(Flag(s, c, true), c, BoundConn(cfg, s.conns[c], boundResource)), c, BIND);
  }

  lemma StatesKeepJid(s: State, d: nat, state: nat)
    requires d < |s.conns|
    ensures SetState(s, d, state).conns[d].jid == s.conns[d].jid
  {
    SetStateChanges(s, d, state);
  }

  lemma HandlersKeepJid(cfg: Config, s: State, e: Event, d: nat)
    requires Handled(s, e) == Some(d) && !e.Binding?
    ensures d < |Step(cfg, s, e).conns| && Step(cfg, s, e).conns[d].jid == s.conns[d].jid
  {
    if e.StreamOpened? {
      ConnectChanges(s, d, e.namespaced, e.deviceClass);
    } else if e.Authenticating? {
      AuthChanges(cfg, s, d, e.name, e.newResource, e.authorized);
    } else if e.OpeningSession? {
      StatesKeepJid(s, d, READY);
    } else if e.Unavailable? {
      StatesKeepJid(s, d, DISCONNECT);
    } else if e.StreamClosed? {
      StatesKeepJid(Send(s, d, Answer("</stream:stream>")), d, DISCONNECT);
    }
  }

  lemma OthersKeepJid(cfg: Config, s: State, e: Event, c: nat)
    requires c < |s.conns| && !(e.Binding? && e.conn == c && Live(s, c))
    ensures c < |Step(cfg, s, e).conns| && Step(cfg, s, e).conns[c].jid == s.conns[c].jid
  {
    if Handled(s, e) == Some(c) && !e.Binding? {
      HandlersKeepJid(cfg, s, e, c);
    } else if Handled(s, e).Some? {
      HandledChanges(cfg, s, e);
    } else if IsRouting(e) {
      RoutingKeeps(cfg, s, e);
    } else if IsRecords(e) {
      RecordsKeep(cfg, s, e);
    } else if e.ServerDisconnects? {
      DisconnectAllKeeps(s, s.clients);
    } else if e.ConnectionLost? && e.protocol in s.protocols && Live(s, s.protocols[e.protocol]) {
      LostChanges(cfg, s, e.protocol);
    }
  }

  lemma NewConnections(cfg: Config, s: State, e: Event, c: nat)
    requires |s.conns| <= c < |Step(cfg, s, e).conns|
    ensures e.ConnectionMade? && Step(cfg, s, e).conns[c].jid == ""
  {
    if Handled(s, e).Some? {
      HandledChanges(cfg, s, e);
    } else if IsRouting(e) {
      RoutingKeeps(cfg, s, e);
    } else if IsRecords(e) {
      RecordsKeep(cfg, s, e);
    } else if e.ServerDisconnects? {
      DisconnectAllKeeps(s, s.clients);
    }
  }

  /** In every run the jid of a connection is the address that its last bind gave it. */
  lemma {:induction false} JidIsLastAddress(cfg: Config, events: seq<Event>, c: nat)
    ensures var s := Run(cfg, events);
            if c < |s.conns| then s.conns[c].jid == LastAddress(cfg, events, c) else LastAddress(cfg, events, c) == ""
    decreases |events|
  {
    if events != [] {
      var before, last := events[..|events| - 1], events[|events| - 1];
      var s := Run(cfg, before);
      JidIsLastAddress(cfg, before, c);
      if c < |s.conns| {
        if last.Binding? && last.conn == c && Live(s, c) {
          BindGivesAddress(cfg, s, c, last.boundResource);
        } else {
          OthersKeepJid(cfg, s, last, c);
        }
      } else if c < |Step(cfg, s, last).conns| {
        NewConnections(cfg, s, last, c);
      }
    }
  }

  /** What a stream header is answered with, by the state of the connection; it changes nothing but the first device class. */
  lemma StreamAnsweredExactly(cfg: Config, s: State, c: nat, namespaced: bool, deviceClass: Option<string>)
    requires Live(s, c)
    ensures var t, conn := Step(cfg, s, StreamOpened(c, namespaced, deviceClass)), s.conns[c];
            && t.conns == s.conns[c := if conn.state == CONNECT && namespaced && deviceClass.Some?
                                       then conn.(devclass := deviceClass.value) else conn]
            && t.sent == s.sent + (
                 if conn.state == CONNECT && !namespaced then [Sent(c, Answer("</stream>"))]
                 else if conn.state == CONNECT && conn.tlsUpgraded then [Sent(c, Answer("stream")), Sent(c, Answer("mechanisms"))]
                 else if conn.state == CONNECT then [Sent(c, Answer("stream")), Sent(c, Answer("starttls mechanisms"))]
                 else if conn.state == INIT && namespaced then [Sent(c, Answer("stream")), Sent(c, Answer("bind session"))]
                 else [])
  {
    ConnectChanges(s, c, namespaced, deviceClass);
    assert s.sent + [] == s.sent;
  }

  /** A closed stream is answered; an unavailable presence is not. */
  lemma LeavingAnsweredExactly(cfg: Config, s: State, c: nat)
    requires Live(s, c)
    ensures Step(cfg, s, StreamClosed(c)).sent == s.sent + [Sent(c, Answer("</stream:stream>"))]
    ensures Step(cfg, s, Unavailable(c)).sent == s.sent
  {
    SetStateChanges(Send(s, c, Answer("</stream:stream>")), c, DISCONNECT);
    SetStateChanges(s, c, DISCONNECT);
  }

  // ---- logging in ----

  /** What a client brings along; only bots name a device class. */
  datatype Login = Login(
    protocol: nat, transport: nat, devclass: string, name: string, resource: Option<string>, authorized: bool,
    boundResource: Option<Option<string>>)
  {
    predicate IsAdmitted(cfg: Config) {
      devclass != "" || authorized || !cfg.useAuth
    }

    /** It connects as connection n, authenticates, binds and opens a session. */
    function Events(n: nat): seq<Event> {
      [ConnectionMade(protocol, transport), StreamOpened(n, true, if devclass == "" then None else Some(devclass)),
       Authenticating(n, name, resource, authorized), Binding(n, boundResource), OpeningSession(n)]
    }

    function Jid(cfg: Config): string {
      if devclass != "" then name + "@" + devclass + ".ecorobot.net/atom"
      else
        match boundResource
        case None => name + "@" + cfg.serverId
        case Some(None) => name + "@" + cfg.serverId + "/None"
        case Some(Some(r)) => name + "@" + cfg.serverId + "/" + r
    }

    /** The connection it has then. */
    function Connection(cfg: Config): Conn {
      Conn(READY, if devclass != "" then Bot else Controller, name, devclass,
           if devclass == "" && boundResource.Some? then boundResource.value else if resource.Some? then resource else Some(""),
           Jid(cfg), false, transport, false, 0, {name})
    }

    /** The stanzas it gets. */
    function Answers(cfg: Config, n: nat): seq<Sent> {
      [Sent(n, Answer("stream")), Sent(n, Answer("starttls mechanisms")), Sent(n, Answer("success")),
       Sent(n, Answer("bind " + Jid(cfg))), Sent(n, Answer("result"))]
    }
  }

  /** t is s with one more connection, which is this, and these stanzas. */
  ghost predicate Extends(s: State, t: State, p: nat, conn: Conn, sent: seq<Sent>) {
    && t.conns == s.conns + [conn] && t.clients == s.clients + [|s.conns|]
    && t.protocols == s.protocols[p := |s.conns|] && t.sent == s.sent + sent
  }

  /** One connection was changed, and stanzas were written. */
  lemma ExtendedNext(s: State, t: State, u: State, p: nat, conn: Conn, sent: seq<Sent>, next: Conn, more: seq<Sent>)
    requires Extends(s, t, p, conn, sent) && OnlyConn(t, u, |s.conns|, next) && u.sent == t.sent + more
    ensures Extends(s, u, p, next, sent + more)
  {
    assert (s.conns + [conn])[|s.conns| := next] == s.conns + [next];
    assert s.sent + sent + more == s.sent + (sent + more);
  }

  lemma Connects(cfg: Config, s: State, l: Login)
    requires l.protocol !in s.protocols
    ensures Extends(s, Step(cfg, s, ConnectionMade(l.protocol, l.transport)), l.protocol, NewConn(l.transport), [])
  {
    assert s.sent + [] == s.sent;
  }

  lemma OpensStream(cfg: Config, s: State, t: State, l: Login)
    requires Extends(s, t, l.protocol, NewConn(l.transport), [])
    ensures Extends(s, Step(cfg, t, l.Events(|s.conns|)[1]), l.protocol, NewConn(l.transport).(devclass := l.devclass),
                    [Sent(|s.conns|, Answer("stream")), Sent(|s.conns|, Answer("starttls mechanisms"))])
  {
    var n, deviceClass := |s.conns|, if l.devclass == "" then None else Some(l.devclass);
    ConnectChanges(t, n, true, deviceClass);
    var more := [Sent(n, Answer("stream")), Sent(n, Answer("starttls mechanisms"))];
    ConnectWrites(t, n, deviceClass, NewConn(l.transport));
    ExtendedNext(s, t, Step(cfg, t, l.Events(n)[1]), l.protocol, NewConn(l.transport), [],
                 NewConn(l.transport).(devclass := l.devclass), more);
    assert [] + more == more;
  }

  lemma ConnectWrites(t: State, n: nat, deviceClass: Option<string>, conn: Conn)
    requires n < |t.conns| && t.conns[n] == conn && conn.state == CONNECT && !conn.tlsUpgraded
    ensures HandleConnect(t, n, true, deviceClass).sent
            == t.sent + [Sent(n, Answer("stream")), Sent(n, Answer("starttls mechanisms"))]
  {
  }

  /** What authenticating makes of a connection that was just offered. */
  function Authenticated(l: Login): Conn {
    NewConn(l.transport).(
      devclass := l.devclass, uid := l.name, resource := if l.resource.Some? then l.resource else Some(""),
      kind := if l.devclass != "" then Bot else Controller, state := INIT)
  }

  lemma Authenticates(cfg: Config, s: State, t: State, l: Login, sent: seq<Sent>)
    requires l.IsAdmitted(cfg) && Extends(s, t, l.protocol, NewConn(l.transport).(devclass := l.devclass), sent)
    ensures var u := Step(cfg, t, Authenticating(|s.conns|, l.name, l.resource, l.authorized));
            && Extends(s, u, l.protocol, Authenticated(l), sent + [Sent(|s.conns|, Answer("success"))])
            && l.name in Flags(u, l.devclass != "")
  {
    var n := |s.conns|;
    AuthChanges(cfg, t, n, l.name, l.resource, l.authorized);
    AuthWrites(cfg, t, n, l);
    var u := Step(cfg, t, Authenticating(n, l.name, l.resource, l.authorized));
    assert AuthConn(cfg, t.conns[n], l.name, l.resource, l.authorized) == Authenticated(l);
    ExtendedNext(s, t, u, l.protocol, t.conns[n], sent, Authenticated(l), [Sent(n, Answer("success"))]);
  }

  lemma AuthWrites(cfg: Config, t: State, n: nat, l: Login)
    requires n < |t.conns| && l.IsAdmitted(cfg) && t.conns[n] == NewConn(l.transport).(devclass := l.devclass)
    ensures var u := HandleAuth(cfg, t, n, l.name, l.resource, l.authorized);
            u.sent == t.sent + [Sent(n, Answer("success"))] && l.name in Flags(u, l.devclass != "")
  {
  }

  /** Without authorization a controller stays where it is, with its new name, and is told so. */
  lemma UnauthorizedIsRefused(cfg: Config, s: State, c: nat, name: string, resource: Option<string>)
    requires Live(s, c) && s.conns[c].devclass == "" && cfg.useAuth
    ensures var t := Step(cfg, s, Authenticating(c, name, resource, false));
            && t.sent == s.sent + [Sent(c, Answer("failure"))]
            && t.conns == s.conns[c := s.conns[c].(uid := name, resource := if resource.Some? then resource else s.conns[c].resource)]
            && t.clientFlags == s.clientFlags && t.botFlags == s.botFlags
  {
  }

  /** What binding makes of it then. */
  function Bound(cfg: Config, l: Login): Conn {
    l.Connection(cfg).(state := BIND)
  }

  lemma Binds(cfg: Config, s: State, t: State, l: Login, sent: seq<Sent>)
    requires Extends(s, t, l.protocol, Authenticated(l), sent) && l.name in Flags(t, l.devclass != "")
    ensures var u := Step(cfg, t, Binding(|s.conns|, l.boundResource));
            && Extends(s, u, l.protocol, Bound(cfg, l), sent + [Sent(|s.conns|, Answer("bind " + l.Jid(cfg)))])
            && Flagged(u, l.devclass != "", l.name)
  {
    var n := |s.conns|;
    var u := Step(cfg, t, Binding(n, l.boundResource));
    BindChanges(cfg, t, n, l.boundResource);
    BindGivesAddress(cfg, t, n, l.boundResource);
    assert Address(cfg, t.conns[n], l.boundResource) == l.Jid(cfg);
    assert BindConn(cfg, t.conns[n], l.boundResource) == Bound(cfg, l);
    ExtendedNext(s, t, u, l.protocol, t.conns[n], sent, Bound(cfg, l), [Sent(n, Answer("bind " + l.Jid(cfg)))]);
    BindFlagsExactly(cfg, t, Binding(n, l.boundResource), l.devclass != "", l.name);
  }

  lemma OpensSession(cfg: Config, s: State, t: State, l: Login, sent: seq<Sent>)
    requires Extends(s, t, l.protocol, Bound(cfg, l), sent) && Flagged(t, l.devclass != "", l.name)
    ensures var u := Step(cfg, t, OpeningSession(|s.conns|));
            && Extends(s, u, l.protocol, l.Connection(cfg), sent + [Sent(|s.conns|, Answer("result"))])
            && Flagged(u, l.devclass != "", l.name)
  {
    var n := |s.conns|;
    SetStateChanges(t, n, READY);
    ExtendedNext(s, t, Step(cfg, t, OpeningSession(n)), l.protocol, t.conns[n], sent, l.Connection(cfg), [Sent(n, Answer("result"))]);
  }

  lemma RunFromNext(cfg: Config, s: State, e: Event, rest: seq<Event>)
    ensures RunFrom(cfg, s, [e] + rest) == RunFrom(cfg, Step(cfg, s, e), rest)
  {
    assert ([e] + rest)[1..] == rest;
  }

  lemma RunsFive(cfg: Config, s: State, a: Event, b: Event, c: Event, d: Event, e: Event)
    ensures RunFrom(cfg, s, [a, b, c, d, e])
            == Step(cfg, Step(cfg, Step(cfg, Step(cfg, Step(cfg, s, a), b), c), d), e)
  {
    assert [a, b, c, d, e] == [a] + ([b] + ([c] + ([d] + ([e] + []))));
    var t := Step(cfg, Step(cfg, s, a), b);
    RunFromNext(cfg, s, a, [b] + ([c] + ([d] + ([e] + []))));
    RunFromNext(cfg, Step(cfg, s, a), b, [c] + ([d] + ([e] + [])));
    RunFromNext(cfg, t, c, [d] + ([e] + []));
    RunFromNext(cfg, Step(cfg, t, c), d, [e] + []);
    RunFromNext(cfg, Step(cfg, Step(cfg, t, c), d), e, []);
  }

  /** In any state a login that is admitted ends with this connection in session, its flag set, and these answers. */
  lemma LoginSucceeds(cfg: Config, s: State, l: Login)
    requires l.protocol !in s.protocols && l.IsAdmitted(cfg)
    ensures var t := RunFrom(cfg, s, l.Events(|s.conns|));
            && Extends(s, t, l.protocol, l.Connection(cfg), l.Answers(cfg, |s.conns|))
            && Flagged(t, l.devclass != "", l.name)
  {
    var n, es := |s.conns|, l.Events(|s.conns|);
    RunsFive(cfg, s, es[0], es[1], es[2], es[3], es[4]);
    var a := Step(cfg, s, es[0]);
    Connects(cfg, s, l);
    OpensStream(cfg, s, a, l);
    var offered := [Sent(n, Answer("stream")), Sent(n, Answer("starttls mechanisms"))];
    var b := Step(cfg, a, es[1]);
    Authenticates(cfg, s, b, l, offered);
    var admitted := offered + [Sent(n, Answer("success"))];
    var c := Step(cfg, b, es[2]);
    Binds(cfg, s, c, l, admitted);
    var bound := admitted + [Sent(n, Answer("bind " + l.Jid(cfg)))];
    OpensSession(cfg, s, Step(cfg, c, es[3]), l, bound);
    assert bound + [Sent(n, Answer("result"))] == l.Answers(cfg, n);
  }

  // ---- as long as nothing happens to a connection ----

  /** The event is not handled on the connection, and neither makes nor loses it. */
  predicate Elsewhere(s: State, e: Event, c: nat) {
    && Handled(s, e) != Some(c)
    && (e.ConnectionMade? || e.ConnectionLost? ==> e.protocol in s.protocols ==> s.protocols[e.protocol] != c)
  }

  predicate AllElsewhere(cfg: Config, s: State, events: seq<Event>, c: nat)
    decreases |events|
  {
    events == [] || (Elsewhere(s, events[0], c) && AllElsewhere(cfg, Step(cfg, s, events[0]), events[1..], c))
  }

  lemma StepElsewhere(cfg: Config, s: State, e: Event, c: nat)
    requires c < |s.conns| && Elsewhere(s, e, c)
    ensures c < |Step(cfg, s, e).conns| && Step(cfg, s, e).conns[c] == s.conns[c]
  {
    if Handled(s, e).Some? {
      HandledChanges(cfg, s, e);
    } else if IsRouting(e) {
      RoutingKeeps(cfg, s, e);
    } else if IsRecords(e) {
      RecordsKeep(cfg, s, e);
    } else if e.ServerDisconnects? {
      DisconnectAllKeeps(s, s.clients);
    } else if e.ConnectionLost? && e.protocol in s.protocols && Live(s, s.protocols[e.protocol]) {
      LostChanges(cfg, s, e.protocol);
    }
  }

  lemma {:induction false} ElsewhereKeeps(cfg: Config, s: State, events: seq<Event>, c: nat)
    requires c < |s.conns| && AllElsewhere(cfg, s, events, c)
    ensures c < |RunFrom(cfg, s, events).conns| && RunFrom(cfg, s, events).conns[c] == s.conns[c]
    decreases |events|
  {
    if events != [] {
      StepElsewhere(cfg, s, events[0], c);
      ElsewhereKeeps(cfg, Step(cfg, s, events[0]), events[1..], c);
    }
  }

  lemma {:induction false} RunGoesOn(cfg: Config, events: seq<Event>, more: seq<Event>)
    ensures Run(cfg, events + more) == RunFrom(cfg, Run(cfg, events), more)
    decreases |more|
  {
    if more == [] {
      assert events + more == events;
    } else {
      var e, rest := more[0], more[1..];
      RunGoesOn(cfg, events + [e], rest);
      FirstStep(cfg, events, e, rest);
      FirstOfRest(events, more);
    }
  }

  lemma FirstOfRest(events: seq<Event>, more: seq<Event>)
    requires more != []
    ensures more == [more[0]] + more[1..] && events + more == events + [more[0]] + more[1..]
  {
  }

  lemma FirstStep(cfg: Config, events: seq<Event>, e: Event, rest: seq<Event>)
    ensures RunFrom(cfg, Run(cfg, events), [e] + rest) == RunFrom(cfg, Run(cfg, events + [e]), rest)
  {
    RunNext(cfg, events, e);
    RunFromNext(cfg, Run(cfg, events), e, rest);
  }

  // ---- from one connection to the other ----

  /** The run in which a bot logs in, and later a user, with anything else that does not touch them. */
  function Meeting(cfg: Config, events: seq<Event>, bot: Login, between: seq<Event>, user: Login, later: seq<Event>): seq<Event> {
    var first := events + bot.Events(|Run(cfg, events).conns|) + between;
    first + user.Events(|Run(cfg, first).conns|) + later
  }

  /** The states after the bot has logged in, before the user does, and after that. */
  function BotIn(cfg: Config, events: seq<Event>, bot: Login): State {
    RunFrom(cfg, Run(cfg, events), bot.Events(|Run(cfg, events).conns|))
  }

  function BeforeUser(cfg: Config, events: seq<Event>, bot: Login, between: seq<Event>): State {
    RunFrom(cfg, BotIn(cfg, events, bot), between)
  }

  function UserIn(cfg: Config, events: seq<Event>, bot: Login, between: seq<Event>, user: Login): State {
    var s := BeforeUser(cfg, events, bot, between);
    RunFrom(cfg, s, user.Events(|s.conns|))
  }

  /** Both may log in, as new protocols and under different names, and nothing else happens to them. */
  predicate Undisturbed(cfg: Config, events: seq<Event>, bot: Login, between: seq<Event>, user: Login, later: seq<Event>) {
    var b, c := |Run(cfg, events).conns|, |BeforeUser(cfg, events, bot, between).conns|;
    && bot.devclass != "" && bot.protocol !in Run(cfg, events).protocols
    && user.devclass == "" && user.IsAdmitted(cfg) && user.protocol !in BeforeUser(cfg, events, bot, between).protocols
    && '@' !in bot.name && '@' !in user.name && bot.name != user.name
    && AllElsewhere(cfg, BotIn(cfg, events, bot), between, b)
    && AllElsewhere(cfg, UserIn(cfg, events, bot, between, user), later, b)
    && AllElsewhere(cfg, UserIn(cfg, events, bot, between, user), later, c)
  }

  lemma MeetingRun(cfg: Config, events: seq<Event>, bot: Login, between: seq<Event>, user: Login, later: seq<Event>)
    ensures Run(cfg, Meeting(cfg, events, bot, between, user, later))
            == RunFrom(cfg, UserIn(cfg, events, bot, between, user), later)
  {
    var n := |Run(cfg, events).conns|;
    RunGoesOn(cfg, events, bot.Events(n));
    RunGoesOn(cfg, events + bot.Events(n), between);
    var first := events + bot.Events(n) + between;
    RunGoesOn(cfg, first, user.Events(|Run(cfg, first).conns|));
    RunGoesOn(cfg, first + user.Events(|Run(cfg, first).conns|), later);
  }

  /** Both are in session then, with the addresses they were given. */
  lemma BothInSession(cfg: Config, events: seq<Event>, bot: Login, between: seq<Event>, user: Login, later: seq<Event>)
    requires Undisturbed(cfg, events, bot, between, user, later)
    ensures var s := Run(cfg, Meeting(cfg, events, bot, between, user, later));
            var b, c := |Run(cfg, events).conns|, |BeforeUser(cfg, events, bot, between).conns|;
            && b < c < |s.conns| && s.conns[b] == bot.Connection(cfg) && s.conns[c] == user.Connection(cfg)
  {
    var b, c := |Run(cfg, events).conns|, |BeforeUser(cfg, events, bot, between).conns|;
    MeetingRun(cfg, events, bot, between, user, later);
    LoginSucceeds(cfg, Run(cfg, events), bot);
    ElsewhereKeeps(cfg, BotIn(cfg, events, bot), between, b);
    LoginSucceeds(cfg, BeforeUser(cfg, events, bot, between), user);
    ElsewhereKeeps(cfg, UserIn(cfg, events, bot, between, user), later, b);
    ElsewhereKeeps(cfg, UserIn(cfg, events, bot, between, user), later, c);
  }

  /** Names without an at sign that differ make addresses that differ. */
  lemma NamesTellJidsApart(cfg: Config, a: Login, b: Login)
    requires '@' !in a.name && '@' !in b.name && a.name != b.name
    ensures a.Jid(cfg) != b.Jid(cfg)
  {
    NameOfJid(cfg, a);
    NameOfJid(cfg, b);
  }

  lemma NameOfJid(cfg: Config, l: Login)
    requires '@' !in l.name
    ensures Split(l.Jid(cfg), '@')[0] == l.name && '@' in l.Jid(cfg)
  {
    var rest := l.Jid(cfg)[|l.name| + 1..];
    assert l.Jid(cfg) == l.name + ['@'] + rest;
    SplitAtSeparator(l.name, rest, '@');
  }

  /**
   End to end: a command of the user whose address names the bot is written to the bot exactly once, with
   the user's address as its sender.
   */
  lemma CommandReachesBot(
    cfg: Config, events: seq<Event>, bot: Login, between: seq<Event>, user: Login, later: seq<Event>, iq: Iq)
    requires Undisturbed(cfg, events, bot, between, user, later)
    requires !iq.roster && !iq.discovery && iq.sender == None
    requires iq.to.Some? && In(cfg.lower(bot.name), cfg.lower(iq.to.value))
    ensures var all := Meeting(cfg, events, bot, between, user, later);
            var b, c := |Run(cfg, events).conns|, |BeforeUser(cfg, events, bot, between).conns|;
            && Live(Run(cfg, all), c) && Run(cfg, all).sent <= Step(cfg, Run(cfg, all), Control(c, iq)).sent
            && Count(Written(cfg, Run(cfg, all), Control(c, iq)), b, Forwarded(iq.(sender := Some(user.Jid(cfg))))) == 1
  {
    var all := Meeting(cfg, events, bot, between, user, later);
    var b, c := |Run(cfg, events).conns|, |BeforeUser(cfg, events, bot, between).conns|;
    BothInSession(cfg, events, bot, between, user, later);
    RegistryIsExact(cfg, all);
    NamesTellJidsApart(cfg, bot, user);
    ControlRoutedExactly(cfg, all, c, iq, b, iq.(sender := Some(user.Jid(cfg))));
  }

  /** And back: a result of the bot to the user's address is written to the user exactly once, with the bot's address as its sender. */
  lemma ResultReachesUser(
    cfg: Config, events: seq<Event>, bot: Login, between: seq<Event>, user: Login, later: seq<Event>, iq: Iq)
    requires Undisturbed(cfg, events, bot, between, user, later)
    requires !iq.errno103 && iq.sender == None && iq.to == Some(user.Jid(cfg))
    requires In(cfg.lower(user.name), cfg.lower(user.name + "@ecouser.net"))
    ensures var all := Meeting(cfg, events, bot, between, user, later);
            var b, c := |Run(cfg, events).conns|, |BeforeUser(cfg, events, bot, between).conns|;
            && Live(Run(cfg, all), b) && Run(cfg, all).sent <= Step(cfg, Run(cfg, all), Result(b, iq)).sent
            && Count(Written(cfg, Run(cfg, all), Result(b, iq)), c, Forwarded(iq.(sender := Some(bot.Jid(cfg))))) == 1
  {
    var all := Meeting(cfg, events, bot, between, user, later);
    var b, c := |Run(cfg, events).conns|, |BeforeUser(cfg, events, bot, between).conns|;
    BothInSession(cfg, events, bot, between, user, later);
    RegistryIsExact(cfg, all);
    NamesTellJidsApart(cfg, bot, user);
    NameOfJid(cfg, user);
    ResultRoutedExactly(cfg, all, b, iq, c, iq.(sender := Some(bot.Jid(cfg))));
  }
}
