/** Who receives a stanza: exactly the connections the rules name, each exactly once, in every reachable state. */
module XmppRouting {
  import opened Results
  import opened Text
  import opened Xmpp
  import opened XmppSessions

  /** How often a stanza was written to a connection. */
  function Count(sent: seq<Sent>, receiver: nat, stanza: Stanza): nat {
    if sent == [] then 0 else (if sent[0] == Sent(receiver, stanza) then 1 else 0) + Count(sent[1..], receiver, stanza)
  }

  lemma {:induction false} CountAppend(a: seq<Sent>, b: seq<Sent>, receiver: nat, stanza: Stanza)
    ensures Count(a + b, receiver, stanza) == Count(a, receiver, stanza) + Count(b, receiver, stanza)
  {
    if a == [] {
      assert a + b == b;
    } else {
      CountAppend(a[1..], b, receiver, stanza);
      assert (a + b)[1..] == a[1..] + b && (a + b)[0] == a[0];
    }
  }

  /** Over a registry without duplicates, the loop writes to each connection that takes the stanza once, and to nobody else. */
  lemma {:induction false} ForwardCount(
    cfg: Config, s: State, c: nat, clients: seq<nat>, to: Option<string>, route: Route, stanza: Stanza,
    receiver: nat, other: Stanza)
    requires Distinct(clients)
    ensures Count(Forward(cfg, s, c, clients, to, route, stanza), receiver, other)
            == if other == stanza && receiver in clients && Takes(cfg, s, c, receiver, to, route) then 1 else 0
    decreases |clients|
  {
    if clients != [] {
      var tail := clients[1..];
      assert forall d :: d in clients <==> d == clients[0] || d in tail;
      assert clients[0] !in tail;
      ForwardCount(cfg, s, c, tail, to, route, stanza, receiver, other);
      var first := if Takes(cfg, s, c, clients[0], to, route) then [Sent(clients[0], stanza)] else [];
      CountAppend(first, Forward(cfg, s, c, tail, to, route, stanza), receiver, other);
      CountOne(first, receiver, other);
    }
  }

  lemma CountOne(sent: seq<Sent>, receiver: nat, stanza: Stanza)
    requires |sent| <= 1
    ensures Count(sent, receiver, stanza) == if sent == [Sent(receiver, stanza)] then 1 else 0
  {
  }

  /** What a step writes. */
  function Written(cfg: Config, s: State, e: Event): seq<Sent>
    requires |s.sent| <= |Step(cfg, s, e).sent|
  {
    Step(cfg, s, e).sent[|s.sent|..]
  }

  /** The route does not depend on what has been sent. */
  lemma {:induction false} ForwardIgnoresSent(
    cfg: Config, s: State, t: State, c: nat, clients: seq<nat>, to: Option<string>, route: Route, stanza: Stanza)
    requires s.conns == t.conns
    ensures Forward(cfg, s, c, clients, to, route, stanza) == Forward(cfg, t, c, clients, to, route, stanza)
    decreases |clients|
  {
    if clients != [] {
      ForwardIgnoresSent(cfg, s, t, c, clients[1..], to, route, stanza);
    }
  }

  /** The stanzas the control handler writes to the sender itself, before its loop. */
  function ControlAnswers(c: nat, iq: Iq): seq<Sent> {
    if iq.roster || iq.discovery then [Sent(c, NotImplemented(iq))]
    else if iq.kind == Some("set") && iq.comSf && iq.to == Some("rl.ecorobot.net") then [Sent(c, Answer("result " + iq.id))]
    else []
  }

  function ControlLoop(cfg: Config, s: State, c: nat, iq: Iq): seq<Sent>
    requires c < |s.conns|
  {
    if ControlIsForwarded(s, c, iq) then Forward(cfg, s, c, s.clients, iq.to, ToControl, Forwarded(Stamped(s, c, iq))) else []
  }

  lemma ControlWrites(cfg: Config, s: State, c: nat, iq: Iq)
    requires c < |s.conns|
    ensures HandleControl(cfg, s, c, iq).sent == s.sent + (ControlAnswers(c, iq) + ControlLoop(cfg, s, c, iq))
  {
    var answers := ControlAnswers(c, iq);
    if iq.roster || iq.discovery {
      assert answers + [] == answers;
    } else {
      var t := s.(sent := s.sent + answers);
      assert s.sent + [] == s.sent;
      if ControlIsForwarded(s, c, iq) {
        ForwardIgnoresSent(cfg, t, s, c, s.clients, iq.to, ToControl, Forwarded(Stamped(s, c, iq)));
        assert HandleControl(cfg, s, c, iq).sent == t.sent + ControlLoop(cfg, s, c, iq);
      } else {
        assert answers + [] == answers;
      }
    }
  }

  /** Whom the loops select, in terms of the connections. */
  lemma TakesControlMeans(cfg: Config, s: State, c: nat, other: nat, to: Option<string>)
    requires c < |s.conns| && other < |s.conns|
    ensures Takes(cfg, s, c, other, to, ToControl) <==>
              && s.conns[other].jid != s.conns[c].jid && s.conns[other].state == READY && s.conns[other].kind == Bot
              && to.Some? && In(cfg.lower(s.conns[other].uid), cfg.lower(to.value))
  {
  }

  lemma TakesResultMeans(cfg: Config, s: State, c: nat, other: nat, to: Option<string>)
    requires c < |s.conns| && other < |s.conns|
    ensures Takes(cfg, s, c, other, to, ToResult) <==>
              && s.conns[other].jid != s.conns[c].jid && s.conns[other].state == READY
              && (to == None || '@' !in to.value
                  || In(cfg.lower(s.conns[other].uid), cfg.lower(Split(to.value, '@')[0] + "@ecouser.net")))
  {
  }

  /**
   A command that reaches the loop is written exactly once to each connection of the registry that is
   a bot in session, has another jid than the sender and is named in the address, and to nobody else;
   one that does not reach it is forwarded to nobody.
   */
  lemma ControlRoutedExactly(cfg: Config, events: seq<Event>, c: nat, iq: Iq, receiver: nat, forwarded: Iq)
    requires var s := Run(cfg, events); Live(s, c) && s.conns[c].kind != Bot
    ensures var s := Run(cfg, events);
            && s.sent <= Step(cfg, s, Control(c, iq)).sent
            && Count(Written(cfg, s, Control(c, iq)), receiver, Forwarded(forwarded))
               == if && !iq.roster && !iq.discovery
                     && forwarded == iq.(sender := if iq.sender.Some? then iq.sender else Some(s.conns[c].jid))
                     && receiver in s.clients && receiver < |s.conns|
                     && s.conns[receiver].jid != s.conns[c].jid && s.conns[receiver].state == READY
                     && s.conns[receiver].kind == Bot
                     && iq.to.Some? && In(cfg.lower(s.conns[receiver].uid), cfg.lower(iq.to.value)) then 1 else 0
  {
    var s := Run(cfg, events);
    RegistryIsExact(cfg, events);
    ControlWrites(cfg, s, c, iq);
    var answers, loop := ControlAnswers(c, iq), ControlLoop(cfg, s, c, iq);
    assert Written(cfg, s, Control(c, iq)) == answers + loop;
    CountAppend(answers, loop, receiver, Forwarded(forwarded));
    CountOne(answers, receiver, Forwarded(forwarded));
    ForwardCount(cfg, s, c, s.clients, iq.to, ToControl, Forwarded(Stamped(s, c, iq)), receiver, Forwarded(forwarded));
    if receiver < |s.conns| { TakesControlMeans(cfg, s, c, receiver, iq.to); }
  }

  /** A ping that names a user goes exactly once to each connection in session, other than the sender's jid, that it names. */
  lemma PingRoutedExactly(cfg: Config, events: seq<Event>, c: nat, iq: Iq, receiver: nat, forwarded: Iq)
    requires Live(Run(cfg, events), c)
    ensures var s := Run(cfg, events);
            && s.sent <= Step(cfg, s, Ping(c, iq)).sent
            && Count(Written(cfg, s, Ping(c, iq)), receiver, Forwarded(forwarded))
               == if && iq.to.Some? && '@' in iq.to.value
                     && forwarded == iq.(sender := if iq.sender.Some? then iq.sender else Some(s.conns[c].jid))
                     && receiver in s.clients && receiver < |s.conns|
                     && s.conns[receiver].jid != s.conns[c].jid && s.conns[receiver].state == READY
                     && In(cfg.lower(s.conns[receiver].uid), cfg.lower(iq.to.value)) then 1 else 0
  {
    var s := Run(cfg, events);
    RegistryIsExact(cfg, events);
    if PingsServer(iq) {
      var answer := [Sent(c, Answer("result " + iq.id + " from " + iq.to.value))];
      assert Written(cfg, s, Ping(c, iq)) == answer;
      CountOne(answer, receiver, Forwarded(forwarded));
    } else {
      assert Written(cfg, s, Ping(c, iq)) == Forward(cfg, s, c, s.clients, iq.to, ToPing, Forwarded(Stamped(s, c, iq)));
      ForwardCount(cfg, s, c, s.clients, iq.to, ToPing, Forwarded(Stamped(s, c, iq)), receiver, Forwarded(forwarded));
    }
  }

  /** The stanzas of de.ecorobot.net, which everybody gets before the loop. */
  function ResultBroadcast(cfg: Config, s: State, c: nat, iq: Iq): seq<Sent>
    requires c < |s.conns|
  {
    if s.conns[c].kind == Bot && iq.to == Some("de.ecorobot.net")
    then Forward(cfg, s, c, s.clients, iq.to, ToAll, Broadcast(Stamped(s, c, iq))) else []
  }

  /** What a result writes, apart from what errno 103 sets off: the broadcast, then the loop's stanzas. */
  lemma ResultWrites(cfg: Config, s: State, c: nat, iq: Iq)
    requires c < |s.conns| && !iq.errno103
    ensures HandleResult(cfg, s, c, iq).sent
            == s.sent + (ResultBroadcast(cfg, s, c, iq)
                         + Forward(cfg, s, c, s.clients, iq.to, ToResult, Forwarded(Stamped(s, c, iq))))
  {
    var broadcast := ResultBroadcast(cfg, s, c, iq);
    var loop := Forward(cfg, s, c, s.clients, iq.to, ToResult, Forwarded(Stamped(s, c, iq)));
    var t := s.(sent := s.sent + broadcast);
    assert s.sent + [] == s.sent;
    ForwardIgnoresSent(cfg, t, s, c, s.clients, iq.to, ToResult, Forwarded(Stamped(s, c, iq)));
    assert HandleResult(cfg, s, c, iq).sent == t.sent + loop;
  }

  /**
   A result without errno 103 goes exactly once to each connection in session, other than the
   sender's jid, that its address names at ecouser.net, or to all of them when it names no user; one
   with errno 103 is forwarded to nobody.
   */
  lemma ResultRoutedExactly(cfg: Config, events: seq<Event>, c: nat, iq: Iq, receiver: nat, forwarded: Iq)
    requires Live(Run(cfg, events), c)
    ensures var s := Run(cfg, events);
            && s.sent <= Step(cfg, s, Result(c, iq)).sent
            && Count(Written(cfg, s, Result(c, iq)), receiver, Forwarded(forwarded))
               == if && !iq.errno103
                     && forwarded == iq.(sender := if iq.sender.Some? then iq.sender else Some(s.conns[c].jid))
                     && receiver in s.clients && receiver < |s.conns|
                     && s.conns[receiver].jid != s.conns[c].jid && s.conns[receiver].state == READY
                     && (iq.to == None || '@' !in iq.to.value
                         || In(cfg.lower(s.conns[receiver].uid), cfg.lower(Split(iq.to.value, '@')[0] + "@ecouser.net")))
                  then 1 else 0
  {
    var s := Run(cfg, events);
    RegistryIsExact(cfg, events);
    if iq.errno103 {
      Errno103ForwardsNothing(cfg, s, c, iq, receiver, forwarded);
    } else {
      ResultWrites(cfg, s, c, iq);
      var broadcast := ResultBroadcast(cfg, s, c, iq);
      var loop := Forward(cfg, s, c, s.clients, iq.to, ToResult, Forwarded(Stamped(s, c, iq)));
      assert Written(cfg, s, Result(c, iq)) == broadcast + loop;
      CountAppend(broadcast, loop, receiver, Forwarded(forwarded));
      ForwardCount(cfg, s, c, s.clients, iq.to, ToAll, Broadcast(Stamped(s, c, iq)), receiver, Forwarded(forwarded));
      ForwardCount(cfg, s, c, s.clients, iq.to, ToResult, Forwarded(Stamped(s, c, iq)), receiver, Forwarded(forwarded));
      if receiver < |s.conns| { TakesResultMeans(cfg, s, c, receiver, iq.to); }
    }
  }

  // ---- what the handlers answer themselves ----

  /** A result of a bot to de.ecorobot.net is broadcast once to every connection of the registry, the sender included. */
  lemma BroadcastExactly(cfg: Config, events: seq<Event>, c: nat, iq: Iq, receiver: nat, broadcast: Iq)
    requires Live(Run(cfg, events), c) && !iq.errno103
    ensures var s := Run(cfg, events);
            && s.sent <= Step(cfg, s, Result(c, iq)).sent
            && Count(Written(cfg, s, Result(c, iq)), receiver, Broadcast(broadcast))
               == if && s.conns[c].kind == Bot && iq.to == Some("de.ecorobot.net")
                     && broadcast == iq.(sender := if iq.sender.Some? then iq.sender else Some(s.conns[c].jid))
                     && receiver in s.clients then 1 else 0
  {
    var s := Run(cfg, events);
    RegistryIsExact(cfg, events);
    ResultWrites(cfg, s, c, iq);
    var all, loop := ResultBroadcast(cfg, s, c, iq), Forward(cfg, s, c, s.clients, iq.to, ToResult, Forwarded(Stamped(s, c, iq)));
    assert Written(cfg, s, Result(c, iq)) == all + loop;
    CountAppend(all, loop, receiver, Broadcast(broadcast));
    ForwardCount(cfg, s, c, s.clients, iq.to, ToAll, Broadcast(Stamped(s, c, iq)), receiver, Broadcast(broadcast));
    ForwardCount(cfg, s, c, s.clients, iq.to, ToResult, Forwarded(Stamped(s, c, iq)), receiver, Broadcast(broadcast));
  }

  /** Rosters and discoveries are refused, with nothing else written. */
  lemma RosterIsRefused(cfg: Config, s: State, c: nat, iq: Iq)
    requires Live(s, c) && s.conns[c].kind != Bot && (iq.roster || iq.discovery)
    ensures Step(cfg, s, Control(c, iq)) == s.(sent := s.sent + [Sent(c, Answer("feature-not-implemented " + iq.id))])
  {
  }

  /** A com:sf set to rl.ecorobot.net is answered before the loop; other commands get no answer from the server. */
  lemma ControlAnswersExactly(cfg: Config, s: State, c: nat, iq: Iq, answer: string)
    requires Live(s, c) && s.conns[c].kind != Bot && !iq.roster && !iq.discovery && Distinct(s.clients)
    ensures s.sent <= Step(cfg, s, Control(c, iq)).sent
    ensures Count(Written(cfg, s, Control(c, iq)), c, Answer(answer))
            == if iq.kind == Some("set") && iq.comSf && iq.to == Some("rl.ecorobot.net") && answer == "result " + iq.id then 1 else 0
  {
    ControlWrites(cfg, s, c, iq);
    var answers, loop := ControlAnswers(c, iq), ControlLoop(cfg, s, c, iq);
    assert Written(cfg, s, Control(c, iq)) == answers + loop;
    CountAppend(answers, loop, c, Answer(answer));
    CountOne(answers, c, Answer(answer));
    ForwardCount(cfg, s, c, s.clients, iq.to, ToControl, Forwarded(Stamped(s, c, iq)), c, Answer(answer));
  }

  /** A ping to the server is answered under the pinged address, and nothing else happens. */
  lemma ServerPingIsAnswered(cfg: Config, s: State, c: nat, iq: Iq)
    requires Live(s, c) && iq.to.Some? && '@' !in iq.to.value
    ensures Step(cfg, s, Ping(c, iq)) == s.(sent := s.sent + [Sent(c, Answer("result " + iq.id + " from " + iq.to.value))])
  {
  }

  /** A bot without permissions is told of the user who asked, in three stanzas, unless that is one of bumper's own or users are checked. */
  lemma MissingPermissionsExactly(cfg: Config, s: State, c: nat, iq: Iq)
    requires Live(s, c) && iq.errno103
    ensures Step(cfg, s, Result(c, iq)) ==
            if && s.conns[c].kind == Bot && iq.to.Some? && iq.adminUser.Some? && !cfg.useAuth
               && !("fuid_" <= iq.adminUser.value) && !("fusername_" <= iq.adminUser.value) then
              s.(sent := s.sent + [Sent(c, Answer("AddUser " + Split(iq.to.value, '/')[0])),
                                   Sent(c, Answer("SetAC " + Split(iq.to.value, '/')[0])), Sent(c, Answer("GetUserInfo"))])
            else s
  {
  }

  lemma Errno103ForwardsNothing(cfg: Config, s: State, c: nat, iq: Iq, receiver: nat, forwarded: Iq)
    requires Live(s, c) && iq.errno103
    ensures s.sent <= Step(cfg, s, Result(c, iq)).sent
    ensures Count(Written(cfg, s, Result(c, iq)), receiver, Forwarded(forwarded)) == 0
  {
    var w := Written(cfg, s, Result(c, iq));
    OnlyAnswers(w, receiver, forwarded);
  }

  lemma {:induction false} OnlyAnswers(sent: seq<Sent>, receiver: nat, forwarded: Iq)
    requires forall i :: 0 <= i < |sent| ==> sent[i].stanza.Answer?
    ensures Count(sent, receiver, Forwarded(forwarded)) == 0
    decreases |sent|
  {
    if sent != [] {
      OnlyAnswers(sent[1..], receiver, forwarded);
    }
  }
}
