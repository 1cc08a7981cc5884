/**
 The classes XMPPServer, XMPPServerProtocol and XMPPAsyncClient (bumper/xmpp/xmpp.py).  Their handlers,
 which update one client object, the shared registry and the flags in the database, are the steps of
 the machine in Xmpp.dfy.
 */
module XmppClass {
  import opened Results
  import opened Text
  import opened Xmpp

  class XMPPAsyncClient {
    var state: nat
    var kind: Kind
    var uid: string
    var devclass: string
    var clientresource: Option<string>
    var bumperJid: string
    var tlsUpgraded: bool
    var transport: nat

    // What the source does not keep: the connection's number, and the last attributes of Conn.
    ghost const number: nat
    ghost var lost: bool
    ghost var scheduled: nat
    ghost var boundAs: set<string>

    constructor (transport: nat, ghost number: nat)
      ensures View() == NewConn(transport).(state := IDLE) && this.number == number
    {
      state, kind, uid, devclass, clientresource := IDLE, Unknown, "", "", Some("");
      bumperJid, tlsUpgraded, this.transport := "", false, transport;
      this.number, lost, scheduled, boundAs := number, false, 0, {};
    }

    ghost function View(): Conn
      reads this
    {
      Conn(state, kind, uid, devclass, clientresource, bumperJid, tlsUpgraded, transport, lost, scheduled, boundAs)
    }
  }

  class XMPPServer {
    const cfg: Config
    var clients: seq<XMPPAsyncClient>
    var protocols: map<nat, XMPPAsyncClient>
    var botFlags: map<string, bool>
    var clientFlags: map<string, bool>

    // Every client there has been, and what was written to each.
    ghost var issued: seq<XMPPAsyncClient>
    ghost var sent: seq<Sent>

    ghost predicate Valid()
      reads this, issued
    {
      && (forall c :: 0 <= c < |issued| ==> issued[c].number == c)
      && (forall i :: 0 <= i < |clients| ==> clients[i] in issued)
      && (forall p :: p in protocols ==> protocols[p] in issued)
    }

    ghost function Conns(): seq<Conn>
      reads this, issued
    {
      seq(|issued|, c requires 0 <= c < |issued| reads this, issued => issued[c].View())
    }

    ghost function View(): State
      reads this, issued
    {
      State(Conns(), map p | p in protocols :: protocols[p].number, Numbers(clients), botFlags, clientFlags, sent)
    }

    constructor (cfg: Config)
      ensures Valid() && View() == INITIAL && this.cfg == cfg
    {
      this.cfg, clients, protocols, botFlags, clientFlags := cfg, [], map[], map[], map[];
      issued, sent := [], [];
    }

    method ConnectionMade(protocol: nat, transport: nat)
      requires Valid()
      modifies this, issued
      ensures Valid() && View() == Step(cfg, old(View()), Event.ConnectionMade(protocol, transport))
    {
      if protocol in protocols {
        protocols[protocol].transport := transport;
      } else {
        var client := Create(transport);
        Enter(protocol, client);
      }
    }

    /** The protocol remembers its client, and the registry gets it. */
    method Enter(protocol: nat, client: XMPPAsyncClient)
      requires Valid() && client in issued
      modifies this`protocols, this`clients
      ensures Valid()
      ensures var s := old(View());
              View() == s.(protocols := s.protocols[protocol := client.number], clients := s.clients + [client.number])
    {
      Remember(protocol, client);
      NumbersAppend(clients, client);
      clients := clients + [client];
    }

    method Remember(protocol: nat, client: XMPPAsyncClient)
      requires Valid() && client in issued
      modifies this`protocols
      ensures Valid()
      ensures View() == old(View()).(protocols := old(View()).protocols[protocol := client.number])
    {
      protocols := protocols[protocol := client];
      assert View().protocols == old(View()).protocols[protocol := client.number];
    }

    /** A new client object in state CONNECT, not yet in the registry. */
    method Create(transport: nat) returns (client: XMPPAsyncClient)
      requires Valid()
      modifies this`issued
      ensures Valid() && fresh(client) && client.number == |old(issued)| && issued == old(issued) + [client]
      ensures View() == old(View()).(conns := old(Conns()) + [NewConn(transport)])
    {
      client := new XMPPAsyncClient(transport, |issued|);
      client.state := CONNECT;
      issued := issued + [client];
    }

    /** The position of the client in the list, or its length. */
    method IndexOf(client: XMPPAsyncClient) returns (i: nat)
      requires Valid() && client in issued
      ensures i <= |clients|
      ensures Remove(Numbers(clients), client.number) == Numbers(clients[..i]) + Numbers(clients[if i < |clients| then i + 1 else i..])
    {
      i := 0;
      assert clients[0..] == clients;
      while i < |clients| && clients[i] != client
        invariant 0 <= i <= |clients|
        invariant Remove(Numbers(clients), client.number) == Numbers(clients[..i]) + Remove(Numbers(clients[i..]), client.number)
      {
        assert issued[clients[i].number] == clients[i] && issued[client.number] == client;
        RemoveNext(clients, i, client.number);
        i := i + 1;
      }
      if i < |clients| { RemoveHere(clients, i, client.number); }
    }

    /** Removing the client from the list, as list.remove does. */
    method RemoveClient(client: XMPPAsyncClient)
      requires Valid() && client in issued
      modifies this`clients
      ensures Valid() && View() == old(View()).(clients := Remove(old(Numbers(clients)), client.number))
    {
      var i := IndexOf(client);
      var next := if i < |clients| then i + 1 else i;
      NumbersConcat(clients[..i], clients[next..]);
      clients := clients[..i] + clients[next..];
    }

    method ConnectionLost(protocol: nat)
      requires Valid() && protocol in protocols && !protocols[protocol].lost
      modifies this, issued
      ensures Valid() && View() == Step(cfg, old(View()), Event.ConnectionLost(protocol))
    {
      var client := protocols[protocol];
      RemoveClient(client);
      MarkLost(client);
      SetState(client, DISCONNECT);
    }

    ghost method MarkLost(client: XMPPAsyncClient)
      requires Valid() && client in issued
      modifies client`lost
      ensures Valid() && View() == Put(old(View()), client.number, old(client.View()).(lost := true))
    {
      client.lost := true;
    }

    method Send(client: XMPPAsyncClient, stanza: Stanza)
      requires Valid() && client in issued
      modifies this`sent
      ensures Valid() && View() == Xmpp.Send(old(View()), client.number, stanza)
    {
      sent := sent + [Sent(client.number, stanza)];
    }

    method SendIf(wanted: bool, client: XMPPAsyncClient, stanza: Stanza)
      requires Valid() && client in issued
      modifies this`sent
      ensures Valid() && sent == (if wanted then old(sent) + [Sent(client.number, stanza)] else old(sent))
      ensures View() == old(View()).(sent := sent)
    {
      if wanted { Send(client, stanza); }
    }

    /** set_xmpp on the record of the client's uid, in the table for its class. */
    method SetXmpp(client: XMPPAsyncClient, value: bool)
      requires Valid() && client in issued
      modifies this`botFlags, this`clientFlags
      ensures Valid() && View() == Flag(old(View()), client.number, value)
    {
      if client.devclass != "" {
        if client.uid in botFlags { botFlags := botFlags[client.uid := value]; }
      } else {
        if client.uid in clientFlags { clientFlags := clientFlags[client.uid := value]; }
      }
    }

    method SetState(client: XMPPAsyncClient, state: nat)
      requires Valid() && client in issued
      modifies this`botFlags, this`clientFlags, client`state
      ensures Valid() && View() == Xmpp.SetState(old(View()), client.number, state)
    {
      if client.state > state { return; }
      PutState(client, state);
      if state == DISCONNECT { SetXmpp(client, false); }
    }

    method PutState(client: XMPPAsyncClient, state: nat)
      requires Valid() && client in issued
      modifies client`state
      ensures Valid() && View() == Put(old(View()), client.number, old(client.View()).(state := state))
    {
      client.state := state;
    }

    // ---- handlers of one client ----

    /** disconnect() of all clients, at shutdown. */
    method Disconnect()
      requires Valid()
      modifies this`botFlags, this`clientFlags
      ensures Valid() && View() == Step(cfg, old(View()), ServerDisconnects)
    {
      ghost var goal := DisconnectAll(View(), Numbers(clients));
      assert clients[0..] == clients;
      for i := 0 to |clients|
        invariant Valid() && DisconnectAll(View(), Numbers(clients[i..])) == goal
      {
        NumbersSplit(clients, i);
        SetXmpp(clients[i], false);
      }
    }

    method HandleConnect(client: XMPPAsyncClient, namespaced: bool, deviceClass: Option<string>)
      requires Valid() && client in issued && !client.lost
      modifies client`devclass, this`sent
      ensures Valid() && View() == Step(cfg, old(View()), StreamOpened(client.number, namespaced, deviceClass))
    {
      if client.state == CONNECT {
        if namespaced {
          if deviceClass.Some? { SetDeviceClass(client, deviceClass.value); }
          Send(client, Answer("stream"));
          SendFeatures(client);
        } else {
          Send(client, Answer("</stream>"));
        }
      } else if client.state == INIT && namespaced {
        Send(client, Answer("stream"));
        Send(client, Answer("bind session"));
      }
    }

    /** STARTTLS is offered to connections that are not upgraded. */
    method SendFeatures(client: XMPPAsyncClient)
      requires Valid() && client in issued
      modifies this`sent
      ensures Valid()
      ensures View() == Xmpp.Send(old(View()), client.number,
                                  Answer(if client.tlsUpgraded then "mechanisms" else "starttls mechanisms"))
    {
      if !client.tlsUpgraded {
        Send(client, Answer("starttls mechanisms"));
      } else {
        Send(client, Answer("mechanisms"));
      }
    }

    method SetDeviceClass(client: XMPPAsyncClient, devclass: string)
      requires Valid() && client in issued
      modifies client`devclass
      ensures Valid() && View() == Put(old(View()), client.number, old(client.View()).(devclass := devclass))
    {
      client.devclass := devclass;
    }

    method HandleSaslAuth(client: XMPPAsyncClient, name: string, newResource: Option<string>, authorized: bool)
      requires Valid() && client in issued && !client.lost
      modifies client, this`botFlags, this`clientFlags, this`sent
      ensures Valid() && View() == Step(cfg, old(View()), Authenticating(client.number, name, newResource, authorized))
    {
      SetUser(client, name, newResource);
      if client.devclass != "" {
        AdmitBot(client);
      } else {
        var auth := authorized || !cfg.useAuth;
        if auth && client.clientresource.Some? {
          AdmitController(client);
        } else {
          Send(client, Answer("failure"));
        }
      }
    }

    method AdmitBot(client: XMPPAsyncClient)
      requires Valid() && client in issued
      modifies client`kind, client`state, this`botFlags, this`clientFlags, this`sent
      ensures Valid() && View() == Xmpp.AdmitBot(old(View()), client.number)
    {
      AddBot(client.uid);
      SetKind(client, Bot);
      Send(client, Answer("success"));
      SetState(client, INIT);
    }

    method AdmitController(client: XMPPAsyncClient)
      requires Valid() && client in issued
      modifies client`kind, client`state, this`botFlags, this`clientFlags, this`sent
      ensures Valid() && View() == Xmpp.AdmitController(old(View()), client.number)
    {
      SetKind(client, Controller);
      AddClient(client.uid);
      SetState(client, INIT);
      Send(client, Answer("success"));
    }

    method AddBot(did: string)
      requires Valid()
      modifies this`botFlags
      ensures Valid() && View() == old(View()).(botFlags := AddRecord(old(botFlags), did))
    {
      if did !in botFlags { botFlags := botFlags[did := false]; }
    }

    method AddClient(userid: string)
      requires Valid()
      modifies this`clientFlags
      ensures Valid() && View() == old(View()).(clientFlags := AddRecord(old(clientFlags), userid))
    {
      if userid !in clientFlags { clientFlags := clientFlags[userid := false]; }
    }

    method SetUser(client: XMPPAsyncClient, name: string, newResource: Option<string>)
      requires Valid() && client in issued
      modifies client`uid, client`clientresource
      ensures Valid() && View() == Put(old(View()), client.number,
                old(client.View()).(uid := name, resource := if newResource.Some? then newResource else old(client.clientresource)))
    {
      client.uid := name;
      if newResource.Some? { client.clientresource := newResource; }
    }

    method SetKind(client: XMPPAsyncClient, kind: Kind)
      requires Valid() && client in issued
      modifies client`kind
      ensures Valid() && View() == Put(old(View()), client.number, old(client.View()).(kind := kind))
    {
      client.kind := kind;
    }

    method HandleBind(client: XMPPAsyncClient, boundResource: Option<Option<string>>)
      requires Valid() && client in issued && !client.lost
      modifies client, this`botFlags, this`clientFlags, this`sent
      ensures Valid() && View() == Step(cfg, old(View()), Binding(client.number, boundResource))
    {
      BindClient(client, boundResource);
      SetState(client, BIND);
      Send(client, Answer("bind " + client.bumperJid));
    }

    method BindClient(client: XMPPAsyncClient, boundResource: Option<Option<string>>)
      requires Valid() && client in issued
      modifies client`clientresource, client`bumperJid, client`boundAs, this`botFlags, this`clientFlags
      ensures Valid() && client.View() == BoundConn(cfg, old(client.View()), boundResource)
      ensures View() == Put(Flag(old(View()), client.number, true), client.number, client.View())
    {
      SetXmpp(client, true);
      NameClient(client, boundResource);
    }

    /** The jid, and the resource where the stanza brings one. */
    method NameClient(client: XMPPAsyncClient, boundResource: Option<Option<string>>)
      requires Valid() && client in issued
      modifies client`clientresource, client`bumperJid, client`boundAs
      ensures Valid() && client.View() == BoundConn(cfg, old(client.View()), boundResource)
      ensures View() == Put(old(View()), client.number, client.View())
    {
      if client.devclass != "" {
        client.bumperJid := client.uid + "@" + client.devclass + ".ecorobot.net/atom";
      } else if boundResource.Some? {
        client.clientresource := boundResource.value;
        client.bumperJid := client.uid + "@" + cfg.serverId + "/" + Str(client.clientresource);
      } else {
        client.bumperJid := client.uid + "@" + cfg.serverId;
      }
      client.boundAs := client.boundAs + {client.uid};
    }

    method HandleSession(client: XMPPAsyncClient)
      requires Valid() && client in issued && !client.lost
      modifies client`state, this`botFlags, this`clientFlags, this`sent
      ensures Valid() && View() == Step(cfg, old(View()), OpeningSession(client.number))
    {
      SetState(client, READY);
      Send(client, Answer("result"));
    }

    method HandleUnavailable(client: XMPPAsyncClient)
      requires Valid() && client in issued && !client.lost
      modifies client`state, this`botFlags, this`clientFlags
      ensures Valid() && View() == Step(cfg, old(View()), Unavailable(client.number))
    {
      SetState(client, DISCONNECT);
    }

    method HandleStreamClosed(client: XMPPAsyncClient)
      requires Valid() && client in issued && !client.lost
      modifies client`state, this`botFlags, this`clientFlags, this`sent
      ensures Valid() && View() == Step(cfg, old(View()), StreamClosed(client.number))
    {
      Send(client, Answer("</stream:stream>"));
      SetState(client, DISCONNECT);
    }

    /** A starttls stanza schedules the coroutine below, unless the connection is upgraded already. */
    method ScheduleStarttls(client: XMPPAsyncClient)
      requires Valid() && client in issued && !client.lost
      modifies client`scheduled
      ensures Valid() && View() == Step(cfg, old(View()), StartTlsReceived(client.number))
    {
      if !client.tlsUpgraded { client.scheduled := client.scheduled + 1; }
    }

    /** A scheduled coroutine runs, up to the handshake. */
    method HandleStarttls(client: XMPPAsyncClient)
      requires Valid() && client in issued && client.scheduled > 0
      modifies client`scheduled, client`tlsUpgraded, this`sent
      ensures Valid() && View() == Step(cfg, old(View()), StartTlsRuns(client.number))
    {
      Unschedule(client);
      if client.tlsUpgraded { return; }
      SetUpgraded(client);
      Send(client, Proceed);
    }

    ghost method Unschedule(client: XMPPAsyncClient)
      requires Valid() && client in issued && client.scheduled > 0
      modifies client`scheduled
      ensures Valid() && client.View() == old(client.View()).(scheduled := old(client.scheduled) - 1)
      ensures View() == Put(old(View()), client.number, client.View())
    {
      client.scheduled := client.scheduled - 1;
    }

    method SetUpgraded(client: XMPPAsyncClient)
      requires Valid() && client in issued
      modifies client`tlsUpgraded
      ensures Valid() && View() == Put(old(View()), client.number, old(client.View()).(tlsUpgraded := true))
    {
      client.tlsUpgraded := true;
    }

    // ---- forwarding ----

    /** The sender's jid is filled in where the stanza has none. */
    method Stamp(client: XMPPAsyncClient, iq: Iq) returns (stamped: Iq)
      requires Valid() && client in issued
      ensures stamped == Stamped(View(), client.number, iq)
    {
      stamped := if iq.sender == None then iq.(sender := Some(client.bumperJid)) else iq;
    }

    method HandleCtl(client: XMPPAsyncClient, iq: Iq)
      requires Valid() && client in issued
      modifies this`sent
      ensures Valid() && View() == HandleControl(cfg, old(View()), client.number, iq)
    {
      if iq.roster || iq.discovery {
        Send(client, NotImplemented(iq));
        return;
      }
      if iq.kind == Some("set") && iq.comSf && iq.to == Some("rl.ecorobot.net") {
        Send(client, Answer("result " + iq.id));
      }
      if iq.admin && client.kind == Bot { return; }
      ForwardCtl(client, iq);
    }

    /** The loop of _handle_ctl. */
    method ForwardCtl(client: XMPPAsyncClient, iq: Iq)
      requires Valid() && client in issued
      modifies this`sent
      ensures Valid()
      ensures View() == Looped(cfg, old(View()), client.number, iq.to, ToControl, Forwarded(Stamped(old(View()), client.number, iq)))
    {
      var stanza := Stamp(client, iq);
      ghost var v := View();
      assert clients[0..] == clients;
      for i := 0 to |clients|
        invariant Valid() && View() == v.(sent := sent)
        invariant sent + Forward(cfg, v, client.number, Numbers(clients[i..]), iq.to, ToControl, Forwarded(stanza))
                  == Looped(cfg, v, client.number, iq.to, ToControl, Forwarded(stanza)).sent
      {
        var other := clients[i];
        RoundNext(cfg, v, client.number, clients, i, sent, iq.to, ToControl, Forwarded(stanza));
        var wanted := IsAddressedBot(client, other, iq, v);
        SendIf(wanted, other, Forwarded(stanza));
      }
    }

    method IsAddressedBot(client: XMPPAsyncClient, other: XMPPAsyncClient, iq: Iq, ghost before: State) returns (wanted: bool)
      requires Valid() && client in issued && other in issued && View() == before.(sent := sent)
      ensures wanted == Takes(cfg, before, client.number, other.number, iq.to, ToControl)
    {
      TakesIgnoresSent(cfg, before, sent, client.number, other.number, iq.to, ToControl);
      wanted := false;
      if other.bumperJid != client.bumperJid && other.state == READY {
        wanted := other.kind == Bot && iq.to.Some? && In(cfg.lower(other.uid), cfg.lower(iq.to.value));
      }
    }

    method HandlePing(client: XMPPAsyncClient, iq: Iq)
      requires Valid() && client in issued
      modifies this`sent
      ensures Valid() && View() == Xmpp.HandlePing(cfg, old(View()), client.number, iq)
    {
      if iq.to.Some? && !Has(iq.to.value, '@') {
        Send(client, Answer("result " + iq.id + " from " + iq.to.value));
      } else {
        ForwardPing(client, iq);
      }
    }

    /** The loop of _handle_ping. */
    method ForwardPing(client: XMPPAsyncClient, iq: Iq)
      requires Valid() && client in issued
      modifies this`sent
      ensures Valid()
      ensures View() == Looped(cfg, old(View()), client.number, iq.to, ToPing, Forwarded(Stamped(old(View()), client.number, iq)))
    {
      var stanza := Stamp(client, iq);
      ghost var v := View();
      assert clients[0..] == clients;
      for i := 0 to |clients|
        invariant Valid() && View() == v.(sent := sent)
        invariant sent + Forward(cfg, v, client.number, Numbers(clients[i..]), iq.to, ToPing, Forwarded(stanza))
                  == Looped(cfg, v, client.number, iq.to, ToPing, Forwarded(stanza)).sent
      {
        var other := clients[i];
        RoundNext(cfg, v, client.number, clients, i, sent, iq.to, ToPing, Forwarded(stanza));
        var wanted := IsAddressed(client, other, iq, v);
        SendIf(wanted, other, Forwarded(stanza));
      }
    }

    method IsAddressed(client: XMPPAsyncClient, other: XMPPAsyncClient, iq: Iq, ghost before: State) returns (wanted: bool)
      requires Valid() && client in issued && other in issued && View() == before.(sent := sent)
      ensures wanted == Takes(cfg, before, client.number, other.number, iq.to, ToPing)
    {
      TakesIgnoresSent(cfg, before, sent, client.number, other.number, iq.to, ToPing);
      wanted := iq.to.Some? && other.bumperJid != client.bumperJid && other.state == READY
                && In(cfg.lower(other.uid), cfg.lower(iq.to.value));
    }

    method HandleResult(client: XMPPAsyncClient, iq: Iq)
      requires Valid() && client in issued
      modifies this`sent
      ensures Valid() && View() == Xmpp.HandleResult(cfg, old(View()), client.number, iq)
    {
      if iq.errno103 {
        if client.kind == Bot && iq.to.Some? && iq.adminUser.Some? && !OwnUser(iq.adminUser.value) && !cfg.useAuth {
          var newuser := Split(iq.to.value, '/')[0];
          Send(client, Answer("AddUser " + newuser));
          Send(client, Answer("SetAC " + newuser));
          Send(client, Answer("GetUserInfo"));
        }
      } else {
        if client.kind == Bot && iq.to == Some("de.ecorobot.net") {
          BroadcastResult(client, iq);
        }
        ForwardResult(client, iq);
      }
    }

    /** The loop for de.ecorobot.net. */
    method BroadcastResult(client: XMPPAsyncClient, iq: Iq)
      requires Valid() && client in issued
      modifies this`sent
      ensures Valid()
      ensures View() == Looped(cfg, old(View()), client.number, iq.to, ToAll, Broadcast(Stamped(old(View()), client.number, iq)))
    {
      var stanza := Stamp(client, iq);
      ghost var v := View();
      assert clients[0..] == clients;
      for i := 0 to |clients|
        invariant Valid() && View() == v.(sent := sent)
        invariant sent + Forward(cfg, v, client.number, Numbers(clients[i..]), iq.to, ToAll, Broadcast(stanza))
                  == Looped(cfg, v, client.number, iq.to, ToAll, Broadcast(stanza)).sent
      {
        RoundNext(cfg, v, client.number, clients, i, sent, iq.to, ToAll, Broadcast(stanza));
        Send(clients[i], Broadcast(stanza));
      }
    }

    /** The last loop of _handle_result. */
    method ForwardResult(client: XMPPAsyncClient, iq: Iq)
      requires Valid() && client in issued
      modifies this`sent
      ensures Valid()
      ensures View() == Looped(cfg, old(View()), client.number, iq.to, ToResult, Forwarded(Stamped(old(View()), client.number, iq)))
    {
      var stanza := Stamp(client, iq);
      var ctlTo := RewriteAddress(iq.to);
      ghost var v := View();
      assert clients[0..] == clients;
      for i := 0 to |clients|
        invariant Valid() && View() == v.(sent := sent)
        invariant sent + Forward(cfg, v, client.number, Numbers(clients[i..]), iq.to, ToResult, Forwarded(stanza))
                  == Looped(cfg, v, client.number, iq.to, ToResult, Forwarded(stanza)).sent
      {
        var other := clients[i];
        RoundNext(cfg, v, client.number, clients, i, sent, iq.to, ToResult, Forwarded(stanza));
        var wanted := IsAddressedBy(client, other, ctlTo, iq.to, v);
        SendIf(wanted, other, Forwarded(stanza));
      }
    }

    method RewriteAddress(to: Option<string>) returns (ctlTo: Option<string>)
      ensures ctlTo == ResultAddress(to)
    {
      ctlTo := to;
      if to.Some? && Has(to.value, '@') {
        ctlTo := Some(Split(to.value, '@')[0] + "@ecouser.net");
      }
    }

    method IsAddressedBy(
      client: XMPPAsyncClient, other: XMPPAsyncClient, ctlTo: Option<string>, ghost to: Option<string>, ghost before: State)
      returns (wanted: bool)
      requires Valid() && client in issued && other in issued && ctlTo == ResultAddress(to) && View() == before.(sent := sent)
      ensures wanted == Takes(cfg, before, client.number, other.number, to, ToResult)
    {
      TakesIgnoresSent(cfg, before, sent, client.number, other.number, to, ToResult);
      ResultIsTaken(cfg, View(), client.number, other.number, to);
      wanted := false;
      if other.bumperJid != client.bumperJid && other.state == READY {
        wanted := ctlTo == None || !Has(ctlTo.value, '@') || In(cfg.lower(other.uid), cfg.lower(ctlTo.value));
      }
    }
  }

  /** The state after a loop over the registry. */
  ghost function Looped(cfg: Config, s: State, c: nat, to: Option<string>, route: Route, stanza: Stanza): State {
    s.(sent := s.sent + Forward(cfg, s, c, s.clients, to, route, stanza))
  }

  lemma TakesIgnoresSent(cfg: Config, s: State, sent: seq<Sent>, c: nat, other: nat, to: Option<string>, route: Route)
    ensures Takes(cfg, s.(sent := sent), c, other, to, route) == Takes(cfg, s, c, other, to, route)
  {
  }

  /** One round of a loop. */
  lemma RoundNext(
    cfg: Config, s: State, c: nat, clients: seq<XMPPAsyncClient>, i: nat, sent: seq<Sent>,
    to: Option<string>, route: Route, stanza: Stanza)
    requires i < |clients|
    ensures sent + Forward(cfg, s, c, Numbers(clients[i..]), to, route, stanza)
            == (if Takes(cfg, s, c, clients[i].number, to, route) then sent + [Sent(clients[i].number, stanza)] else sent)
               + Forward(cfg, s, c, Numbers(clients[i + 1..]), to, route, stanza)
  {
    NumbersSplit(clients, i);
    ForwardNext(cfg, s, c, clients[i].number, Numbers(clients[i + 1..]), sent, to, route, stanza);
  }

  lemma ForwardNext(
    cfg: Config, s: State, c: nat, other: nat, tail: seq<nat>, sent: seq<Sent>, to: Option<string>, route: Route, stanza: Stanza)
    ensures sent + Forward(cfg, s, c, [other] + tail, to, route, stanza)
            == (if Takes(cfg, s, c, other, to, route) then sent + [Sent(other, stanza)] else sent)
               + Forward(cfg, s, c, tail, to, route, stanza)
  {
    assert ([other] + tail)[1..] == tail;
  }

  /** The rule for results, by the rewritten address: it still names a user. */
  lemma ResultIsTaken(cfg: Config, s: State, c: nat, other: nat, to: Option<string>)
    requires c < |s.conns| && other < |s.conns|
    ensures var address := ResultAddress(to);
            Takes(cfg, s, c, other, to, ToResult) <==>
              && s.conns[other].jid != s.conns[c].jid && s.conns[other].state == READY
              && (address == None || !Has(address.value, '@') || In(cfg.lower(s.conns[other].uid), cfg.lower(address.value)))
  {
    if to.Some? && Has(to.value, '@') {
      var user := Split(to.value, '@')[0];
      assert (user + "@ecouser.net")[|user|] == '@';
    }
  }

  ghost function Numbers(clients: seq<XMPPAsyncClient>): seq<nat> {
    if clients == [] then [] else [clients[0].number] + Numbers(clients[1..])
  }

  lemma {:induction false} NumbersConcat(a: seq<XMPPAsyncClient>, b: seq<XMPPAsyncClient>)
    ensures Numbers(a + b) == Numbers(a) + Numbers(b)
  {
    if a == [] {
      assert a + b == b;
    } else {
      NumbersConcat(a[1..], b);
      assert (a + b)[1..] == a[1..] + b && (a + b)[0] == a[0];
    }
  }

  lemma RemoveNext(clients: seq<XMPPAsyncClient>, i: nat, number: nat)
    requires i < |clients| && clients[i].number != number
    ensures Numbers(clients[..i]) + Remove(Numbers(clients[i..]), number)
            == Numbers(clients[..i + 1]) + Remove(Numbers(clients[i + 1..]), number)
  {
    NumbersSplit(clients, i);
    var tail := Numbers(clients[i + 1..]);
    assert ([clients[i].number] + tail)[1..] == tail;
  }

  lemma RemoveHere(clients: seq<XMPPAsyncClient>, i: nat, number: nat)
    requires i < |clients| && clients[i].number == number
    ensures Remove(Numbers(clients[i..]), number) == Numbers(clients[i + 1..])
  {
    NumbersSplit(clients, i);
  }

  lemma NumbersAppend(clients: seq<XMPPAsyncClient>, client: XMPPAsyncClient)
    ensures Numbers(clients + [client]) == Numbers(clients) + [client.number]
  {
    NumbersConcat(clients, [client]);
  }

  lemma NumbersSplit(clients: seq<XMPPAsyncClient>, i: nat)
    requires i < |clients|
    ensures Numbers(clients[i..]) == [clients[i].number] + Numbers(clients[i + 1..])
    ensures Numbers(clients[..i + 1]) == Numbers(clients[..i]) + [clients[i].number]
  {
    assert clients[i..][1..] == clients[i + 1..];
    assert clients[..i + 1] == clients[..i] + [clients[i]];
    NumbersAppend(clients[..i], clients[i]);
  }
}
