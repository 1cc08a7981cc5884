/** What a connection flag in the database says about the connections, in every run. */
module XmppFlags {
  import opened Results
  import opened Xmpp
  import opened XmppSessions

  /** The connection backs a flag: it bound under the uid, and it is live under that uid or has changed its uid since. */
  predicate Backs(c: Conn, bot: bool, uid: string) {
    IsBot(c) == bot && uid in c.boundAs && (c.uid == uid ==> !c.lost)
  }

  ghost predicate Backed(s: State, bot: bool, uid: string) {
    exists c :: 0 <= c < |s.conns| && Backs(s.conns[c], bot, uid)
  }

  function Flags(s: State, bot: bool): map<string, bool> {
    if bot then s.botFlags else s.clientFlags
  }

  predicate Flagged(s: State, bot: bool, uid: string) {
    uid in Flags(s, bot) && Flags(s, bot)[uid]
  }

  ghost predicate AllBacked(s: State) {
    forall bot, uid :: Flagged(s, bot, uid) ==> Backed(s, bot, uid)
  }

  /** A connection that has bound is past the states in which its device class is set. */
  predicate InOrder(c: Conn) {
    c.state <= DISCONNECT && (c.boundAs != {} ==> c.state >= BIND)
  }

  ghost predicate AllInOrder(s: State) {
    forall c :: 0 <= c < |s.conns| ==> InOrder(s.conns[c])
  }

  // ---- steps that change no flag to true ----

  /** No flag is raised, except possibly that of one uid. */
  ghost predicate RaisesOnly(s: State, t: State, raised: bool, bot: bool, uid: string) {
    forall b, u :: Flagged(t, b, u) ==> Flagged(s, b, u) || (raised && b == bot && u == uid)
  }

  /** Every backing survives. */
  ghost predicate KeepsBacking(s: State, t: State) {
    && |s.conns| <= |t.conns|
    && forall c, bot, uid :: 0 <= c < |s.conns| && Backs(s.conns[c], bot, uid) && Flagged(t, bot, uid) ==>
         Backs(t.conns[c], bot, uid)
  }

  lemma StillBacked(s: State, t: State, bot: bool, uid: string)
    requires AllBacked(s) && KeepsBacking(s, t) && Flagged(s, bot, uid) && Flagged(t, bot, uid)
    ensures Backed(t, bot, uid)
  {
    var c :| 0 <= c < |s.conns| && Backs(s.conns[c], bot, uid);
    assert Backs(t.conns[c], bot, uid);
  }

  lemma FlagOnly(s: State, c: nat, value: bool)
    requires c < |s.conns|
    ensures var t := Flag(s, c, value);
            && t.conns == s.conns
            && RaisesOnly(s, t, value, IsBot(s.conns[c]), s.conns[c].uid)
            && (!value ==> !Flagged(t, IsBot(s.conns[c]), s.conns[c].uid))
  {
  }

  lemma {:induction false} DisconnectAllRaisesNothing(s: State, clients: seq<nat>)
    ensures RaisesOnly(s, DisconnectAll(s, clients), false, false, "")
    decreases |clients|
  {
    if clients != [] {
      if clients[0] < |s.conns| { FlagOnly(s, clients[0], false); }
      DisconnectAllRaisesNothing(if clients[0] < |s.conns| then Flag(s, clients[0], false) else s, clients[1..]);
    }
  }

  lemma AdmitFlags(s: State, c: nat, bot: bool, uid: string)
    requires c < |s.conns|
    ensures Flagged(AdmitBot(s, c), bot, uid) <==> Flagged(s, bot, uid)
    ensures Flagged(AdmitController(s, c), bot, uid) <==> Flagged(s, bot, uid)
  {
  }

  lemma AuthFlagsKept(cfg: Config, s: State, c: nat, name: string, newResource: Option<string>, authorized: bool, bot: bool, uid: string)
    requires c < |s.conns|
    ensures Flagged(HandleAuth(cfg, s, c, name, newResource, authorized), bot, uid) <==> Flagged(s, bot, uid)
  {
    var conn := s.conns[c].(uid := name, resource := if newResource.Some? then newResource else s.conns[c].resource);
    AdmitFlags(Put(s, c, conn), c, bot, uid);
  }

  lemma AuthFlags(cfg: Config, s: State, c: nat, name: string, newResource: Option<string>, authorized: bool)
    requires c < |s.conns|
    ensures RaisesOnly(s, HandleAuth(cfg, s, c, name, newResource, authorized), false, false, "")
  {
    forall bot, uid | Flagged(HandleAuth(cfg, s, c, name, newResource, authorized), bot, uid) ensures Flagged(s, bot, uid) {
      AuthFlagsKept(cfg, s, c, name, newResource, authorized, bot, uid);
    }
  }

  lemma BindFlags(cfg: Config, s: State, c: nat, boundResource: Option<Option<string>>)
    requires c < |s.conns|
    ensures RaisesOnly(s, HandleBind(cfg, s, c, boundResource), true, IsBot(s.conns[c]), s.conns[c].uid)
  {
    FlagOnly(s, c, true);
  }

  lemma StateFlags(cfg: Config, s: State, e: Event)
    requires AllInOrder(s) && Handled(s, e).Some? && !e.Authenticating? && !e.Binding?
    ensures RaisesOnly(s, Step(cfg, s, e), false, false, "")
  {
    forall bot, uid | Flagged(Step(cfg, s, e), bot, uid) ensures Flagged(s, bot, uid) {
      StepFlagsExactly(cfg, s, e, bot, uid);
    }
  }

  lemma LostFlags(cfg: Config, s: State, p: nat)
    requires p in s.protocols && Live(s, s.protocols[p]) && InOrder(s.conns[s.protocols[p]])
    ensures var c, t := s.conns[s.protocols[p]], Step(cfg, s, ConnectionLost(p));
            RaisesOnly(s, t, false, false, "") && !Flagged(t, IsBot(c), c.uid)
  {
  }

  lemma OtherFlags(cfg: Config, s: State, e: Event)
    requires Handled(s, e) == None && !e.ConnectionLost?
    ensures RaisesOnly(s, Step(cfg, s, e), false, false, "")
  {
    if IsRouting(e) {
      RoutingKeeps(cfg, s, e);
    } else if e.ServerDisconnects? {
      DisconnectAllRaisesNothing(s, s.clients);
    }
  }

  // ---- the invariant ----

  /** What a handler keeps of its connection's order, class, name and bindings. */
  ghost predicate KeepsOrder(a: Conn, b: Conn, e: Event) {
    && InOrder(b)
    && (!e.Binding? ==> b.boundAs == a.boundAs)
    && (a.boundAs != {} ==> b.devclass == a.devclass)
    && (!e.Authenticating? ==> b.uid == a.uid)
  }

  lemma LoginInOrder(cfg: Config, s: State, e: Event)
    requires Handled(s, e).Some? && InOrder(s.conns[Handled(s, e).value]) && (e.Authenticating? || e.Binding?)
    ensures var c := Handled(s, e).value;
            c < |Step(cfg, s, e).conns| && KeepsOrder(s.conns[c], Step(cfg, s, e).conns[c], e)
  {
    match e {
      case Authenticating(c, name, newResource, authorized) => AuthChanges(cfg, s, c, name, newResource, authorized);
      case Binding(c, boundResource) => BindChanges(cfg, s, c, boundResource);
      case _ =>
    }
  }

  lemma StateInOrder(cfg: Config, s: State, e: Event)
    requires Handled(s, e).Some? && InOrder(s.conns[Handled(s, e).value])
    requires e.OpeningSession? || e.Unavailable? || e.StreamClosed?
    ensures var c := Handled(s, e).value;
            c < |Step(cfg, s, e).conns| && KeepsOrder(s.conns[c], Step(cfg, s, e).conns[c], e)
  {
    match e {
      case OpeningSession(c) => SetStateChanges(s, c, READY);
      case Unavailable(c) => SetStateChanges(s, c, DISCONNECT);
      case StreamClosed(c) => SetStateChanges(Send(s, c, Answer("</stream:stream>")), c, DISCONNECT);
    }
  }

  lemma StreamInOrder(cfg: Config, s: State, e: Event)
    requires Handled(s, e).Some? && InOrder(s.conns[Handled(s, e).value])
    requires e.StreamOpened? || e.StartTlsReceived? || e.StartTlsRuns?
    ensures var c := Handled(s, e).value;
            c < |Step(cfg, s, e).conns| && KeepsOrder(s.conns[c], Step(cfg, s, e).conns[c], e)
  {
    if e.StreamOpened? { ConnectChanges(s, e.conn, e.namespaced, e.deviceClass); }
  }

  lemma HandledInOrder(cfg: Config, s: State, e: Event)
    requires Handled(s, e).Some? && InOrder(s.conns[Handled(s, e).value])
    ensures var c := Handled(s, e).value;
            c < |Step(cfg, s, e).conns| && KeepsOrder(s.conns[c], Step(cfg, s, e).conns[c], e)
  {
    if e.Authenticating? || e.Binding? {
      LoginInOrder(cfg, s, e);
    } else if e.OpeningSession? || e.Unavailable? || e.StreamClosed? {
      StateInOrder(cfg, s, e);
    } else {
      StreamInOrder(cfg, s, e);
    }
  }

  lemma StepInOrder(cfg: Config, s: State, e: Event)
    requires AllInOrder(s)
    ensures AllInOrder(Step(cfg, s, e))
  {
    if Handled(s, e).Some? {
      HandledInOrder(cfg, s, e);
      HandledChanges(cfg, s, e);
    } else if IsRouting(e) {
      RoutingKeeps(cfg, s, e);
    } else if IsRecords(e) {
      RecordsKeep(cfg, s, e);
    } else if e.ServerDisconnects? {
      DisconnectAllKeeps(s, s.clients);
    } else if e.ConnectionLost? && e.protocol in s.protocols && Live(s, s.protocols[e.protocol]) {
      LostChanges(cfg, s, e.protocol);
    }
  }

  lemma HandledKeepsBacking(cfg: Config, s: State, e: Event)
    requires Handled(s, e).Some? && AllInOrder(s)
    ensures KeepsBacking(s, Step(cfg, s, e))
  {
    var d := Handled(s, e).value;
    var t := Step(cfg, s, e);
    HandledChanges(cfg, s, e);
    HandledInOrder(cfg, s, e);
    forall c, bot, uid | 0 <= c < |s.conns| && Backs(s.conns[c], bot, uid) && Flagged(t, bot, uid)
      ensures Backs(t.conns[c], bot, uid)
    {
      if c == d {
        if e.Binding? { BindChanges(cfg, s, e.conn, e.boundResource); }
        if s.conns[c].lost { assert t.conns[c].uid == s.conns[c].uid by { LostIsNotHandled(cfg, s, e); } }
      }
    }
  }

  lemma LostIsNotHandled(cfg: Config, s: State, e: Event)
    requires Handled(s, e).Some? && s.conns[Handled(s, e).value].lost
    ensures Handled(s, e).value < |Step(cfg, s, e).conns|
    ensures Step(cfg, s, e).conns[Handled(s, e).value].uid == s.conns[Handled(s, e).value].uid
  {
  }

  lemma StepBacked(cfg: Config, s: State, e: Event)
    requires AllInOrder(s) && AllBacked(s)
    ensures AllBacked(Step(cfg, s, e))
  {
    var t := Step(cfg, s, e);
    if Handled(s, e).Some? {
      HandledBacked(cfg, s, e);
    } else if e.ConnectionLost? {
      if e.protocol in s.protocols && Live(s, s.protocols[e.protocol]) { LostBacked(cfg, s, e.protocol); }
    } else {
      OtherFlags(cfg, s, e);
      OthersKeepBacking(cfg, s, e);
      forall bot, uid | Flagged(t, bot, uid) ensures Backed(t, bot, uid) {
        StillBacked(s, t, bot, uid);
      }
    }
  }

  lemma OthersKeepBacking(cfg: Config, s: State, e: Event)
    requires Handled(s, e) == None && !e.ConnectionLost?
    ensures KeepsBacking(s, Step(cfg, s, e))
  {
    if IsRouting(e) {
      RoutingKeeps(cfg, s, e);
    } else if IsRecords(e) {
      RecordsKeep(cfg, s, e);
    } else if e.ServerDisconnects? {
      DisconnectAllKeeps(s, s.clients);
    }
  }

  lemma HandledBacked(cfg: Config, s: State, e: Event)
    requires Handled(s, e).Some? && AllInOrder(s) && AllBacked(s)
    ensures AllBacked(Step(cfg, s, e))
  {
    var c := Handled(s, e).value;
    var t := Step(cfg, s, e);
    HandledKeepsBacking(cfg, s, e);
    HandledChanges(cfg, s, e);
    match e {
      case Authenticating(_, name, newResource, authorized) => AuthFlags(cfg, s, c, name, newResource, authorized);
      case Binding(_, boundResource) =>
        BindFlags(cfg, s, c, boundResource);
        BindChanges(cfg, s, c, boundResource);
      case _ => StateFlags(cfg, s, e);
    }
    forall bot, uid | Flagged(t, bot, uid) ensures Backed(t, bot, uid) {
      if Flagged(s, bot, uid) {
        StillBacked(s, t, bot, uid);
      } else {
        assert Backs(t.conns[c], bot, uid);
      }
    }
  }

  lemma LostBacked(cfg: Config, s: State, p: nat)
    requires p in s.protocols && Live(s, s.protocols[p]) && AllInOrder(s) && AllBacked(s)
    ensures AllBacked(Step(cfg, s, ConnectionLost(p)))
  {
    var t := Step(cfg, s, ConnectionLost(p));
    LostFlags(cfg, s, p);
    LostChanges(cfg, s, p);
    forall bot, uid | Flagged(t, bot, uid) ensures Backed(t, bot, uid) {
      StillBacked(s, t, bot, uid);
    }
  }

  /**
   In every run, a connection flag that is set has a connection that bound under that uid, and that
   connection is still live, unless it has authenticated under another name since.
   */
  lemma {:induction false} FlagsAreBacked(cfg: Config, events: seq<Event>)
    ensures AllInOrder(Run(cfg, events)) && AllBacked(Run(cfg, events))
    decreases |events|
  {
    if events != [] {
      FlagsAreBacked(cfg, events[..|events| - 1]);
      StepInOrder(cfg, Run(cfg, events[..|events| - 1]), events[|events| - 1]);
      StepBacked(cfg, Run(cfg, events[..|events| - 1]), events[|events| - 1]);
    }
  }

  // ---- when no connection changes its uid after binding ----

  /** No authentication of the run gives a bound connection another uid. */
  ghost predicate Steady(cfg: Config, events: seq<Event>) {
    events == [] ||
    (var n := |events| - 1;
     var s := Run(cfg, events[..n]);
     && Steady(cfg, events[..n])
     && (events[n].Authenticating? && Live(s, events[n].conn) && s.conns[events[n].conn].boundAs != {} ==>
           events[n].name == s.conns[events[n].conn].uid))
  }

  ghost predicate BoundUnderOwnUid(s: State) {
    forall c :: 0 <= c < |s.conns| ==> s.conns[c].boundAs <= {s.conns[c].uid}
  }

  lemma StepBoundUnderOwnUid(cfg: Config, s: State, e: Event)
    requires AllInOrder(s) && BoundUnderOwnUid(s)
    requires e.Authenticating? && Live(s, e.conn) && s.conns[e.conn].boundAs != {} ==> e.name == s.conns[e.conn].uid
    ensures BoundUnderOwnUid(Step(cfg, s, e))
  {
    if Handled(s, e).Some? {
      HandledChanges(cfg, s, e);
      HandledBoundAs(cfg, s, e);
    } else if IsRouting(e) {
      RoutingKeeps(cfg, s, e);
    } else if IsRecords(e) {
      RecordsKeep(cfg, s, e);
    } else if e.ServerDisconnects? {
      DisconnectAllKeeps(s, s.clients);
    } else if e.ConnectionLost? && e.protocol in s.protocols && Live(s, s.protocols[e.protocol]) {
      LostChanges(cfg, s, e.protocol);
    }
  }

  lemma HandledBoundAs(cfg: Config, s: State, e: Event)
    requires Handled(s, e).Some? && AllInOrder(s) && BoundUnderOwnUid(s)
    requires e.Authenticating? && Live(s, e.conn) && s.conns[e.conn].boundAs != {} ==> e.name == s.conns[e.conn].uid
    ensures var c := Handled(s, e).value;
            c < |Step(cfg, s, e).conns| && Step(cfg, s, e).conns[c].boundAs <= {Step(cfg, s, e).conns[c].uid}
  {
    match e {
      case Authenticating(c, name, newResource, authorized) => AuthChanges(cfg, s, c, name, newResource, authorized);
      case Binding(c, boundResource) => BindChanges(cfg, s, c, boundResource);
      case _ => HandledInOrder(cfg, s, e);
    }
  }

  lemma {:induction false} SteadyBoundUnderOwnUid(cfg: Config, events: seq<Event>)
    requires Steady(cfg, events)
    ensures BoundUnderOwnUid(Run(cfg, events))
    decreases |events|
  {
    if events != [] {
      SteadyBoundUnderOwnUid(cfg, events[..|events| - 1]);
      FlagsAreBacked(cfg, events[..|events| - 1]);
      StepBoundUnderOwnUid(cfg, Run(cfg, events[..|events| - 1]), events[|events| - 1]);
    }
  }

  /** The connection is in the registry and bound under its uid, as a bot or as a client. */
  predicate BoundLive(s: State, c: nat, bot: bool, uid: string) {
    && c in s.clients && c < |s.conns|
    && IsBot(s.conns[c]) == bot && s.conns[c].uid == uid && uid in s.conns[c].boundAs
  }

  lemma BackedByLive(s: State, bot: bool, uid: string) returns (c: nat)
    requires Backed(s, bot, uid) && BoundUnderOwnUid(s) && RegistryExact(s)
    ensures BoundLive(s, c, bot, uid)
  {
    c :| 0 <= c < |s.conns| && Backs(s.conns[c], bot, uid);
    assert s.conns[c].boundAs <= {s.conns[c].uid};
  }

  /** Then a set flag always has a connection in the registry that bound under its uid, in the right table. */
  lemma FlagMeansLiveConnection(cfg: Config, events: seq<Event>, bot: bool, uid: string) returns (c: nat)
    requires Steady(cfg, events) && Flagged(Run(cfg, events), bot, uid)
    ensures BoundLive(Run(cfg, events), c, bot, uid)
  {
    FlagsAreBacked(cfg, events);
    SteadyBoundUnderOwnUid(cfg, events);
    RegistryIsExact(cfg, events);
    c := BackedByLive(Run(cfg, events), bot, uid);
  }

  /** And once all connections are lost, all flags are false. */
  lemma NoConnectionsNoFlags(cfg: Config, events: seq<Event>)
    requires Steady(cfg, events) && Run(cfg, events).clients == []
    ensures forall bot, uid :: !Flagged(Run(cfg, events), bot, uid)
  {
    forall bot, uid ensures !Flagged(Run(cfg, events), bot, uid) {
      if Flagged(Run(cfg, events), bot, uid) {
        var c := FlagMeansLiveConnection(cfg, events, bot, uid);
      }
    }
  }

  // ---- what a flag says exactly ----

  /** The connection is of the class of the table, and goes by the uid. */
  predicate Named(c: Conn, bot: bool, uid: string) {
    IsBot(c) == bot && c.uid == uid
  }

  /** A connection of that name binds, and there is a record. */
  predicate Raises(s: State, e: Event, bot: bool, uid: string) {
    e.Binding? && Live(s, e.conn) && Named(s.conns[e.conn], bot, uid) && uid in Flags(s, bot)
  }

  /** A connection of that name becomes unavailable or is lost, the server shuts down while it has one, or the record goes. */
  predicate Clears(s: State, e: Event, bot: bool, uid: string) {
    match e
    case ConnectionLost(p) => p in s.protocols && Live(s, s.protocols[p]) && Named(s.conns[s.protocols[p]], bot, uid)
    case Unavailable(c) => Live(s, c) && Named(s.conns[c], bot, uid)
    case StreamClosed(c) => Live(s, c) && Named(s.conns[c], bot, uid)
    case ServerDisconnects => exists c :: c in s.clients && c < |s.conns| && Named(s.conns[c], bot, uid)
    case BotRemoved(did) => bot && did == uid
    case ClientRemoved(userid) => !bot && userid == uid
    case _ => false
  }

  lemma FlagExactly(s: State, c: nat, value: bool, bot: bool, uid: string)
    requires c < |s.conns|
    ensures Flagged(Flag(s, c, value), bot, uid)
            <==> if Named(s.conns[c], bot, uid) && uid in Flags(s, bot) then value else Flagged(s, bot, uid)
  {
  }

  lemma {:induction false} DisconnectAllExactly(s: State, clients: seq<nat>, bot: bool, uid: string)
    ensures Flagged(DisconnectAll(s, clients), bot, uid)
            <==> Flagged(s, bot, uid) && !exists c :: c in clients && c < |s.conns| && Named(s.conns[c], bot, uid)
    decreases |clients|
  {
    if clients != [] {
      if clients[0] < |s.conns| { FlagExactly(s, clients[0], false, bot, uid); }
      DisconnectAllExactly(if clients[0] < |s.conns| then Flag(s, clients[0], false) else s, clients[1..], bot, uid);
    }
  }

  /** A lost connection clears the flag of its own name, and no other. */
  lemma LostClearsExactly(cfg: Config, s: State, p: nat, bot: bool, uid: string)
    requires p in s.protocols && Live(s, s.protocols[p]) && s.conns[s.protocols[p]].state <= DISCONNECT
    ensures Flagged(Step(cfg, s, ConnectionLost(p)), bot, uid)
            <==> Flagged(s, bot, uid) && !Named(s.conns[s.protocols[p]], bot, uid)
  {
  }

  lemma AuthFlagsExactly(cfg: Config, s: State, e: Event, bot: bool, uid: string)
    requires e.Authenticating?
    ensures Flagged(Step(cfg, s, e), bot, uid) <==> Flagged(s, bot, uid)
  {
    if Live(s, e.conn) { AuthFlagsKept(cfg, s, e.conn, e.name, e.newResource, e.authorized, bot, uid); }
  }

  lemma BindFlagsExactly(cfg: Config, s: State, e: Event, bot: bool, uid: string)
    requires e.Binding?
    ensures Flagged(Step(cfg, s, e), bot, uid) <==> Raises(s, e, bot, uid) || Flagged(s, bot, uid)
  {
    if Live(s, e.conn) { FlagExactly(s, e.conn, true, bot, uid); }
  }

  lemma SetStateFlags(s: State, c: nat, state: nat, bot: bool, uid: string)
    requires c < |s.conns| && s.conns[c].state <= DISCONNECT
    ensures Flagged(SetState(s, c, state), bot, uid)
            <==> Flagged(s, bot, uid) && !(state == DISCONNECT && Named(s.conns[c], bot, uid))
  {
    FlagExactly(Put(s, c, s.conns[c].(state := state)), c, false, bot, uid);
  }

  lemma StateFlagsExactly(cfg: Config, s: State, e: Event, bot: bool, uid: string)
    requires AllInOrder(s) && Handled(s, e).Some? && (e.OpeningSession? || e.Unavailable? || e.StreamClosed?)
    ensures Flagged(Step(cfg, s, e), bot, uid) <==> Flagged(s, bot, uid) && !Clears(s, e, bot, uid)
  {
    match e {
      case OpeningSession(c) => SetStateFlags(s, c, READY, bot, uid);
      case Unavailable(c) => SetStateFlags(s, c, DISCONNECT, bot, uid);
      case StreamClosed(c) => SetStateFlags(Send(s, c, Answer("</stream:stream>")), c, DISCONNECT, bot, uid);
    }
  }

  lemma ConnectFlags(s: State, c: nat, namespaced: bool, deviceClass: Option<string>)
    requires c < |s.conns|
    ensures var t := HandleConnect(s, c, namespaced, deviceClass); t.botFlags == s.botFlags && t.clientFlags == s.clientFlags
  {
  }

  lemma StreamFlagsExactly(cfg: Config, s: State, e: Event, bot: bool, uid: string)
    requires e.StreamOpened? || e.StartTlsReceived? || e.StartTlsRuns? || e.ConnectionMade?
    ensures Flagged(Step(cfg, s, e), bot, uid) <==> Flagged(s, bot, uid)
  {
    if e.StreamOpened? && Live(s, e.conn) { ConnectFlags(s, e.conn, e.namespaced, e.deviceClass); }
  }

  lemma RecordFlagsExactly(cfg: Config, s: State, e: Event, bot: bool, uid: string)
    requires IsRecords(e)
    ensures Flagged(Step(cfg, s, e), bot, uid) <==> Flagged(s, bot, uid) && !Clears(s, e, bot, uid)
  {
  }

  /** What one step makes of a flag. */
  lemma StepFlagsExactly(cfg: Config, s: State, e: Event, bot: bool, uid: string)
    requires AllInOrder(s)
    ensures Flagged(Step(cfg, s, e), bot, uid)
            <==> Raises(s, e, bot, uid) || (Flagged(s, bot, uid) && !Clears(s, e, bot, uid))
  {
    if e.Authenticating? {
      AuthFlagsExactly(cfg, s, e, bot, uid);
    } else if e.Binding? {
      BindFlagsExactly(cfg, s, e, bot, uid);
    } else if e.StreamOpened? || e.StartTlsReceived? || e.StartTlsRuns? || e.ConnectionMade? {
      StreamFlagsExactly(cfg, s, e, bot, uid);
    } else if Handled(s, e).Some? {
      StateFlagsExactly(cfg, s, e, bot, uid);
    } else if IsRouting(e) {
      RoutingKeeps(cfg, s, e);
    } else if IsRecords(e) {
      RecordFlagsExactly(cfg, s, e, bot, uid);
    } else if e.ServerDisconnects? {
      DisconnectAllExactly(s, s.clients, bot, uid);
    } else if e.ConnectionLost? && e.protocol in s.protocols && Live(s, s.protocols[e.protocol]) {
      LostClearsExactly(cfg, s, e.protocol, bot, uid);
    }
  }

  predicate RaisedAt(cfg: Config, events: seq<Event>, i: nat, bot: bool, uid: string) {
    i < |events| && Raises(Run(cfg, events[..i]), events[i], bot, uid)
  }

  predicate ClearedAt(cfg: Config, events: seq<Event>, i: nat, bot: bool, uid: string) {
    i < |events| && Clears(Run(cfg, events[..i]), events[i], bot, uid)
  }

  /** The bind at i raised the flag, and nothing has cleared it since. */
  ghost predicate LastRaisedAt(cfg: Config, events: seq<Event>, i: nat, bot: bool, uid: string) {
    RaisedAt(cfg, events, i, bot, uid) && forall j: nat :: j > i ==> !ClearedAt(cfg, events, j, bot, uid)
  }

  /** A bind raised the flag, and nothing has cleared it since. */
  ghost predicate RaisedLast(cfg: Config, events: seq<Event>, bot: bool, uid: string) {
    exists i: nat :: LastRaisedAt(cfg, events, i, bot, uid)
  }

  lemma AtPrefix(cfg: Config, events: seq<Event>, n: nat, i: nat, bot: bool, uid: string)
    requires i < n <= |events|
    ensures RaisedAt(cfg, events[..n], i, bot, uid) == RaisedAt(cfg, events, i, bot, uid)
    ensures ClearedAt(cfg, events[..n], i, bot, uid) == ClearedAt(cfg, events, i, bot, uid)
  {
    assert events[..n][..i] == events[..i];
  }

  lemma LastRaisedAtPrefix(cfg: Config, events: seq<Event>, i: nat, bot: bool, uid: string)
    requires i < |events| - 1
    ensures LastRaisedAt(cfg, events, i, bot, uid)
            <==> LastRaisedAt(cfg, events[..|events| - 1], i, bot, uid) && !ClearedAt(cfg, events, |events| - 1, bot, uid)
  {
    var n := |events| - 1;
    AtPrefix(cfg, events, n, i, bot, uid);
    forall j: nat | j < n ensures ClearedAt(cfg, events[..n], j, bot, uid) == ClearedAt(cfg, events, j, bot, uid) {
      AtPrefix(cfg, events, n, j, bot, uid);
    }
  }

  lemma RaisedLastNext(cfg: Config, events: seq<Event>, bot: bool, uid: string)
    requires events != []
    ensures var n := |events| - 1;
            RaisedLast(cfg, events, bot, uid)
            <==> RaisedAt(cfg, events, n, bot, uid)
                 || (RaisedLast(cfg, events[..n], bot, uid) && !ClearedAt(cfg, events, n, bot, uid))
  {
    var n := |events| - 1;
    forall i: nat | i < n
      ensures LastRaisedAt(cfg, events, i, bot, uid)
              <==> LastRaisedAt(cfg, events[..n], i, bot, uid) && !ClearedAt(cfg, events, n, bot, uid)
    {
      LastRaisedAtPrefix(cfg, events, i, bot, uid);
    }
    assert RaisedAt(cfg, events, n, bot, uid) ==> LastRaisedAt(cfg, events, n, bot, uid);
  }

  /** In every run a flag is set exactly when a connection of that name has bound and nothing has cleared the flag since. */
  lemma {:induction false} FlagIsExact(cfg: Config, events: seq<Event>, bot: bool, uid: string)
    ensures Flagged(Run(cfg, events), bot, uid) <==> RaisedLast(cfg, events, bot, uid)
    decreases |events|
  {
    if events != [] {
      var n := |events| - 1;
      FlagIsExact(cfg, events[..n], bot, uid);
      FlagsAreBacked(cfg, events[..n]);
      StepFlagsExactly(cfg, Run(cfg, events[..n]), events[n], bot, uid);
      RaisedLastNext(cfg, events, bot, uid);
    }
  }

  // ---- where flags and connections disagree ----

  lemma RunNext(cfg: Config, events: seq<Event>, e: Event)
    ensures Run(cfg, events + [e]) == Step(cfg, Run(cfg, events), e)
  {
    assert (events + [e])[..|events|] == events;
  }

  /**
   The proviso is needed in every state of every run: if the last connection there is has another name
   than the one whose flag is set, losing it leaves that flag set with no connection at all.
   */
  lemma ChangedUidStrandsFlag(cfg: Config, events: seq<Event>, p: nat, again: Event, bot: bool, uid: string)
    requires var s := Run(cfg, events);
             && p in s.protocols && Live(s, s.protocols[p]) && s.conns[s.protocols[p]].uid == uid && Flagged(s, bot, uid)
             && s.clients == [s.protocols[p]]
             && again.Authenticating? && again.conn == s.protocols[p] && again.name != uid
    ensures var t := Run(cfg, events + [again] + [ConnectionLost(p)]); t.clients == [] && Flagged(t, bot, uid)
  {
    var s := Run(cfg, events);
    RunNext(cfg, events, again);
    RunNext(cfg, events + [again], ConnectionLost(p));
    FlagsAreBacked(cfg, events);
    RenamedStrandsFlag(cfg, s, p, again, bot, uid);
  }

  lemma Renamed(cfg: Config, s: State, again: Event, uid: string)
    requires again.Authenticating? && Live(s, again.conn) && AllInOrder(s) && again.name != uid
    ensures var t := Step(cfg, s, again);
            && t.protocols == s.protocols && t.clients == s.clients && AllInOrder(t)
            && Live(t, again.conn) && t.conns[again.conn].uid != uid
  {
    AuthChanges(cfg, s, again.conn, again.name, again.newResource, again.authorized);
    StepInOrder(cfg, s, again);
  }

  lemma RenamedStrandsFlag(cfg: Config, s: State, p: nat, again: Event, bot: bool, uid: string)
    requires AllInOrder(s) && p in s.protocols && Live(s, s.protocols[p]) && Flagged(s, bot, uid)
    requires s.clients == [s.protocols[p]] && again.Authenticating? && again.conn == s.protocols[p] && again.name != uid
    ensures var t := Step(cfg, Step(cfg, s, again), ConnectionLost(p)); t.clients == [] && Flagged(t, bot, uid)
  {
    var t := Step(cfg, s, again);
    Renamed(cfg, s, again, uid);
    AuthFlagsExactly(cfg, s, again, bot, uid);
    LostClearsExactly(cfg, t, p, bot, uid);
    LostChanges(cfg, t, p);
  }

  /** Runs that get there: a bot connects, authenticates and binds. */
  function Connected(p: nat, devclass: string): seq<Event> {
    [ConnectionMade(p, 0)] + [StreamOpened(0, true, Some(devclass))]
  }

  function LoggedIn(p: nat, devclass: string, name: string): seq<Event> {
    Connected(p, devclass) + [Authenticating(0, name, None, false)]
  }

  function BoundBot(p: nat, devclass: string, name: string): seq<Event> {
    LoggedIn(p, devclass, name) + [Binding(0, None)]
  }

  /** The only connection there has been is this one. */
  predicate OnlyConnection(s: State, p: nat, conn: Conn) {
    s.conns == [conn] && s.protocols == map[p := 0] && s.clients == [0] && !conn.lost
  }

  lemma FirstConnects(cfg: Config, p: nat, devclass: string)
    requires devclass != ""
    ensures OnlyConnection(Run(cfg, Connected(p, devclass)), p, NewConn(0).(devclass := devclass))
  {
    RunNext(cfg, [], ConnectionMade(p, 0));
    RunNext(cfg, [ConnectionMade(p, 0)], StreamOpened(0, true, Some(devclass)));
    assert [] + [ConnectionMade(p, 0)] == [ConnectionMade(p, 0)];
    FirstOpens(cfg, Run(cfg, [ConnectionMade(p, 0)]), p, devclass);
  }

  lemma FirstOpens(cfg: Config, s: State, p: nat, devclass: string)
    requires OnlyConnection(s, p, NewConn(0))
    ensures OnlyConnection(Step(cfg, s, StreamOpened(0, true, Some(devclass))), p, NewConn(0).(devclass := devclass))
  {
    ConnectChanges(s, 0, true, Some(devclass));
  }

  lemma FirstLogsIn(cfg: Config, p: nat, devclass: string, name: string)
    requires devclass != ""
    ensures var s := Run(cfg, LoggedIn(p, devclass, name));
            && OnlyConnection(s, p, AuthConn(cfg, NewConn(0).(devclass := devclass), name, None, false))
            && name in s.botFlags
  {
    FirstConnects(cfg, p, devclass);
    RunNext(cfg, Connected(p, devclass), Authenticating(0, name, None, false));
    FirstAuthenticates(cfg, Run(cfg, Connected(p, devclass)), p, NewConn(0).(devclass := devclass), name);
  }

  lemma FirstAuthenticates(cfg: Config, s: State, p: nat, conn: Conn, name: string)
    requires OnlyConnection(s, p, conn) && IsBot(conn)
    ensures var t := Step(cfg, s, Authenticating(0, name, None, false));
            OnlyConnection(t, p, AuthConn(cfg, conn, name, None, false)) && name in t.botFlags
  {
    AuthChanges(cfg, s, 0, name, None, false);
  }

  lemma FirstBinds(cfg: Config, s: State, p: nat, conn: Conn)
    requires OnlyConnection(s, p, conn) && IsBot(conn) && conn.uid in s.botFlags
    ensures var t := Step(cfg, s, Binding(0, None));
            OnlyConnection(t, p, BindConn(cfg, conn, None)) && Flagged(t, true, conn.uid)
  {
    BindChanges(cfg, s, 0, None);
    BindFlagsExactly(cfg, s, Binding(0, None), true, conn.uid);
  }

  lemma BotIsBound(cfg: Config, p: nat, devclass: string, name: string)
    requires devclass != ""
    ensures var s := Run(cfg, BoundBot(p, devclass, name));
            && p in s.protocols && s.protocols[p] == 0 && s.clients == [0] && Live(s, 0)
            && BoundLive(s, 0, true, name) && Flagged(s, true, name)
  {
    FirstLogsIn(cfg, p, devclass, name);
    RunNext(cfg, LoggedIn(p, devclass, name), Binding(0, None));
    FirstBinds(cfg, Run(cfg, LoggedIn(p, devclass, name)), p, AuthConn(cfg, NewConn(0).(devclass := devclass), name, None, false));
  }

  /** So the flags of a run need not be false once all connections are lost. */
  lemma FlagWithoutConnections(cfg: Config, p: nat, devclass: string, name: string, other: string)
    requires devclass != "" && name != other
    ensures var t := Run(cfg, BoundBot(p, devclass, name) + [Authenticating(0, other, None, false)] + [ConnectionLost(p)]);
            t.clients == [] && Flagged(t, true, name)
  {
    BotIsBound(cfg, p, devclass, name);
    ChangedUidStrandsFlag(cfg, BoundBot(p, devclass, name), p, Authenticating(0, other, None, false), true, name);
  }

  /** And a live connection need not have its flag: one of two with the same name clears it for the other. */
  lemma SharedUidClearsFlag(cfg: Config, events: seq<Event>, p: nat, d: nat, bot: bool, uid: string)
    requires var s := Run(cfg, events);
             && p in s.protocols && s.protocols[p] != d
             && BoundLive(s, s.protocols[p], bot, uid) && BoundLive(s, d, bot, uid)
    ensures var t := Run(cfg, events + [ConnectionLost(p)]); BoundLive(t, d, bot, uid) && !Flagged(t, bot, uid)
  {
    var s := Run(cfg, events);
    RunNext(cfg, events, ConnectionLost(p));
    RegistryIsExact(cfg, events);
    FlagsAreBacked(cfg, events);
    LostClearsExactly(cfg, s, p, bot, uid);
    LostChanges(cfg, s, p);
    RemoveDistinct(s.clients, s.protocols[p]);
  }
}
