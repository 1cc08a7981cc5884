/**
 The classes ProxyClient (bumper/mqtt/proxy.py) and BumperMQTTServerPlugin (bumper/mqtt/server.py), as
 far as they translate addresses: their methods are the steps of the machine in Proxy.dfy.
 */
module ProxyClass {
  import opened Results
  import opened Text
  import opened TtlCache
  import opened Proxy

  class ProxyClient {
    var requestMapper: Mapper
    var isConnected: bool
    ghost const number: nat

    constructor (connected: bool, ghost number: nat)
      ensures View() == ProxyState(Empty(), connected) && this.number == number
    {
      requestMapper, isConnected := Empty(), connected;
      this.number := number;
    }

    ghost function View(): ProxyState
      reads this
    {
      ProxyState(requestMapper, isConnected)
    }

    /** The body of the loop in _handle_messages; an exception ends it without a publication. */
    method HandleMessage(topic: string, body: Option<string>, now: real) returns (published: Option<Publication>)
      modifies this`requestMapper
      ensures (requestMapper, published) == FromCloud(old(requestMapper), topic, body, now)
    {
      published := None;
      if body == None { return; }
      var ttopic := Split(topic, '/');
      var target := topic;
      if |ttopic| <= 1 { return; }
      if ttopic[1] == "p2p" {
        if |ttopic| <= 3 || ttopic[3] == "proxyhelper" { return; }
        if |ttopic| <= 10 { return; }
        var stored := Insert(requestMapper, ttopic[10], ttopic[3], now, MAXSIZE, TTL);
        if stored == None { return; }
        requestMapper := stored.value;
        ttopic := ttopic[3 := "proxyhelper"];
        target := Join(ttopic, '/');
      }
      published := Some((target, body.value));
    }

    /** What the broker's plugin publishes to the cloud for a robot's message. */
    method Translate(topic: string, text: string, now: real) returns (published: Option<Publication>)
      modifies this`requestMapper
      ensures (requestMapper, published) == FromRobot(old(requestMapper), topic, text, now)
    {
      published := None;
      var parts := Split(topic, '/');
      if |parts| < 7 { return; }
      if parts[3] == "proxyhelper" { return; }
      var target := topic;
      if parts[6] == "proxyhelper" {
        if |parts| <= 10 { return; }
        var receiver := Lookup(requestMapper, parts[10], now);
        requestMapper := Pop(requestMapper, parts[10], now);
        parts := parts[6 := if receiver.Some? then receiver.value else ""];
        if parts[6] == "" { return; }
        target := Join(parts, '/');
      }
      published := Some((target, text));
    }
  }

  class BumperMQTTServerPlugin {
    var proxyClients: map<string, ProxyClient>
    var clock: real
    ghost var issued: seq<ProxyClient>
    ghost var log: seq<Note>

    constructor ()
      ensures Valid() && View() == INITIAL
    {
      proxyClients, clock, issued, log := map[], 0.0, [], [];
    }

    ghost predicate Valid()
      reads this, issued
    {
      && (forall p :: 0 <= p < |issued| ==> issued[p].number == p)
      && (forall client :: client in proxyClients ==> proxyClients[client] in issued)
    }

    ghost function View(): State
      reads this, issued
    {
      State(clock,
            seq(|issued|, p requires 0 <= p < |issued| reads this, issued => issued[p].View()),
            map client | client in proxyClients :: proxyClients[client].number,
            log)
    }

    /** The proxy part of authenticate: a client that comes back gets a new proxy client, and the old one is forgotten. */
    method Authenticate(clientId: string, connected: bool)
      requires Valid()
      modifies this
      ensures Valid() && View() == Step(old(View()), Authenticated(clientId, connected))
    {
      var proxy := Create(connected);
      Remember(clientId, proxy);
    }

    method Remember(clientId: string, proxy: ProxyClient)
      requires Valid() && proxy in issued
      modifies this`proxyClients
      ensures Valid() && View() == old(View()).(registry := old(View()).registry[clientId := proxy.number])
    {
      proxyClients := proxyClients[clientId := proxy];
      assert View().registry == old(View()).registry[clientId := proxy.number];
    }

    method Create(connected: bool) returns (proxy: ProxyClient)
      requires Valid()
      modifies this`issued
      ensures Valid() && proxy in issued && proxy.number == |old(issued)|
      ensures View() == old(View()).(proxies := old(View()).proxies + [ProxyState(Empty(), connected)])
    {
      proxy := new ProxyClient(connected, |issued|);
      issued := issued + [proxy];
    }

    method OnBrokerClientDisconnected(clientId: string)
      requires Valid()
      modifies this`proxyClients, issued
      ensures Valid() && View() == Step(old(View()), Disconnected(clientId))
    {
      if clientId in proxyClients {
        var proxy := proxyClients[clientId];
        proxyClients := proxyClients - {clientId};
        proxy.isConnected := false;
      }
    }

    method OnBrokerMessageReceived(clientId: string, topic: string, text: string) returns (published: Option<Publication>)
      requires Valid()
      modifies this`log, issued
      ensures Valid() && issued == old(issued) && View() == Step(old(View()), Broker(clientId, topic, text))
      ensures published == if clientId in proxyClients then log[|log| - 1].published else None
    {
      published := None;
      if clientId !in proxyClients { return; }
      var proxy := proxyClients[clientId];
      published := proxy.Translate(topic, text, clock);
      log := log + [Note(proxy.number, false, clock, topic, Some(text), published)];
    }

    /** A message from the cloud reaches the loop of one of the proxy clients. */
    method OnCloudMessage(proxy: ProxyClient, topic: string, body: Option<string>) returns (published: Option<Publication>)
      requires Valid() && proxy in issued && proxy.isConnected
      modifies this`log, proxy
      ensures Valid() && issued == old(issued) && View() == Step(old(View()), Cloud(proxy.number, topic, body))
      ensures log != [] && published == log[|log| - 1].published
    {
      published := proxy.HandleMessage(topic, body, clock);
      log := log + [Note(proxy.number, true, clock, topic, body, published)];
    }
  }
}
