/**
 When the helper bot's cache finds a command in flight, whatever the timing, the ids and the number of
 commands.
 */
module HelperLimits {
  import opened Results
  import opened Text
  import opened TtlCache
  import opened HelperTopics
  import opened HelperBot
  import opened HelperCorrelation
  import opened HelperRefinement

  // ---- the items of the cache ----

  /** Items belong to their commands and expire with them, in a cache in order. */
  ghost predicate ItemsBelong(cfg: Config, s: State) {
    && s.store.Cached? && TtlCache.InOrder(s.store.cache, cfg.MaxSize())
    && forall id :: id in s.store.cache.items ==>
         var i := s.store.cache.items[id];
         i.value < |s.calls| && s.calls[i.value].id == id && i.expires == s.calls[i.value].registered + cfg.Ttl()
  }

  /** The cache holds the command under its id. */
  predicate HasItem(s: State, k: nat) {
    && k < |s.calls| && s.store.Cached? && s.calls[k].id in s.store.cache.items
    && s.store.cache.items[s.calls[k].id].value == k
  }

  lemma SendBelongs(cfg: Config, s: State, id: string, payloadType: string)
    requires cfg.Valid() && ItemsBelong(cfg, s)
    ensures ItemsBelong(cfg, Apply(cfg, s, Send(id, payloadType)))
  {
    if cfg.MaxSize() >= 1.0 {
      InsertKeepsExactly(s.store.cache, id, |s.calls|, s.now, cfg.MaxSize(), cfg.Ttl());
      InsertStores(s.store.cache, id, |s.calls|, s.now, cfg.MaxSize(), cfg.Ttl());
    }
  }

  lemma ExitBelongs(cfg: Config, s: State, k: nat, result: Option<Reply>)
    requires ItemsBelong(cfg, s) && k < |s.calls|
    ensures ItemsBelong(cfg, Exit(s, k, result))
  {
    PopInOrder(s.store.cache, s.calls[k].id, s.now, cfg.MaxSize());
  }

  lemma DeliverBelongs(cfg: Config, s: State, topic: string, payload: string)
    requires ItemsBelong(cfg, s)
    ensures ItemsBelong(cfg, Deliver(s, topic, payload))
  {
    forall key ensures TtlCache.InOrder(Touch(s.store.cache, key), cfg.MaxSize()) {
      TouchInOrder(s.store.cache, key, cfg.MaxSize());
    }
  }

  lemma OtherBelongs(cfg: Config, s: State, e: Event)
    requires ItemsBelong(cfg, s) && (e.Tick? || e.Published?)
    ensures ItemsBelong(cfg, Apply(cfg, s, e))
  {
  }

  lemma AbortBelongs(cfg: Config, s: State, id: string)
    requires ItemsBelong(cfg, s)
    ensures ItemsBelong(cfg, Apply(cfg, s, Aborted(id)))
  {
    PopInOrder(s.store.cache, id, s.now, cfg.MaxSize());
  }

  /** What an event that ends a command does. */
  lemma EndExits(cfg: Config, s: State, e: Event)
    requires e.PublishFailed? || e.Finished? || e.TimedOut? || e.Cancelled?
    ensures Apply(cfg, s, e) == s || (Ends(s, e, e.call) && exists result :: Apply(cfg, s, e) == Exit(s, e.call, result))
    ensures Ends(s, e, e.call) ==> exists result :: Apply(cfg, s, e) == Exit(s, e.call, result)
  {
    if Ends(s, e, e.call) {
      var result := if e.Finished? then Render(cfg, s.calls[e.call].payloadType, s.calls[e.call].response.value) else None;
      assert Apply(cfg, s, e) == Exit(s, e.call, result);
    }
  }

  lemma StepBelongs(cfg: Config, s: State, e: Event)
    requires cfg.Valid() && ItemsBelong(cfg, s)
    ensures ItemsBelong(cfg, Step(cfg, s, e))
  {
    match e {
      case Send(id, payloadType) => SendBelongs(cfg, s, id, payloadType);
      case Message(topic, payload) => DeliverBelongs(cfg, s, topic, payload);
      case Tick(_) => OtherBelongs(cfg, s, e);
      case Published(_) => OtherBelongs(cfg, s, e);
      case Aborted(id) => AbortBelongs(cfg, s, id);
      case _ =>
        EndExits(cfg, s, e);
        if Apply(cfg, s, e) != s {
          var result :| Apply(cfg, s, e) == Exit(s, e.call, result);
          ExitBelongs(cfg, s, e.call, result);
        }
    }
  }

  lemma {:induction false} RunBelongs(cfg: Config, events: seq<Event>)
    requires cfg.Valid()
    ensures ItemsBelong(cfg, Run(cfg, NO_COMMANDS, events))
    decreases |events|
  {
    if events != [] {
      RunBelongs(cfg, events[..|events| - 1]);
      StepBelongs(cfg, Run(cfg, NO_COMMANDS, events[..|events| - 1]), events[|events| - 1]);
    }
  }

  // ---- what displaces a command ----

  /**
   The event takes the item of command k out of the cache although k goes on: a command registers under
   the same id, or under a new id while the cache is full and k is the least recently used; or another
   command with the same id ends.
   */
  predicate Displaces(cfg: Config, s: State, e: Event, k: nat) {
    && k < |s.calls| && s.store.Cached?
    && match e
       case Send(id, _) =>
         cfg.MaxSize() >= 1.0
         && (id == s.calls[k].id || MakesRoom(Expire(s.store.cache, s.now), id, cfg.MaxSize(), s.calls[k].id))
       case Aborted(id) => id == s.calls[k].id
       case Tick(_) => false
       case Published(_) => false
       case Message(_, _) => false
       case _ => e.call != k && Ends(s, e, e.call) && s.calls[e.call].id == s.calls[k].id
  }

  /** The command is in flight, and its item has not expired. */
  predicate Current(cfg: Config, s: State, k: nat) {
    k < |s.calls| && s.calls[k].InFlight() && s.now < s.calls[k].registered + cfg.Ttl()
  }

  /** The item of a current command is fresh. */
  lemma CurrentIsFresh(cfg: Config, s: State, k: nat)
    requires ItemsBelong(cfg, s) && Current(cfg, s, k) && HasItem(s, k)
    ensures Fresh(s.store.cache.items[s.calls[k].id], s.now)
  {
  }

  lemma InsertItems(cfg: Config, c: Cache<nat>, id: string, n: nat, now: real, key: string, k: nat)
    requires cfg.Valid() && TtlCache.InOrder(c, cfg.MaxSize()) && cfg.MaxSize() >= 1.0 && k != n
    requires key in c.items && c.items[key].value == k ==> Fresh(c.items[key], now)
    ensures var d := Insert(c, id, n, now, cfg.MaxSize(), cfg.Ttl()).value;
            key in d.items && d.items[key].value == k
            <==> key in c.items && c.items[key].value == k && key != id && !MakesRoom(Expire(c, now), id, cfg.MaxSize(), key)
  {
    InsertKeepsExactly(c, id, n, now, cfg.MaxSize(), cfg.Ttl());
    InsertStores(c, id, n, now, cfg.MaxSize(), cfg.Ttl());
  }

  lemma SendItems(cfg: Config, s: State, e: Event, k: nat)
    requires cfg.Valid() && ItemsBelong(cfg, s) && Current(cfg, s, k) && e.Send?
    ensures HasItem(Step(cfg, s, e), k) <==> HasItem(s, k) && !Displaces(cfg, s, e, k)
  {
    if HasItem(s, k) { CurrentIsFresh(cfg, s, k); }
    if cfg.MaxSize() >= 1.0 {
      InsertItems(cfg, s.store.cache, e.id, |s.calls|, s.now, s.calls[k].id, k);
    }
  }

  lemma ExitItems(cfg: Config, s: State, j: nat, result: Option<Reply>, k: nat)
    requires ItemsBelong(cfg, s) && Current(cfg, s, k) && j < |s.calls| && j != k
    ensures HasItem(Exit(s, j, result), k) <==> HasItem(s, k) && s.calls[j].id != s.calls[k].id
  {
  }

  lemma OtherItems(cfg: Config, s: State, e: Event, k: nat)
    requires Current(cfg, s, k) && (e.Tick? || e.Published? || e.Message?)
    ensures HasItem(Step(cfg, s, e), k) <==> HasItem(s, k) && !Displaces(cfg, s, e, k)
  {
  }

  lemma AbortItems(cfg: Config, s: State, e: Event, k: nat)
    requires ItemsBelong(cfg, s) && Current(cfg, s, k) && e.Aborted?
    ensures HasItem(Step(cfg, s, e), k) <==> HasItem(s, k) && !Displaces(cfg, s, e, k)
  {
  }

  /** A current command that stays current keeps its item exactly if it is not displaced. */
  lemma StepItems(cfg: Config, s: State, e: Event, k: nat)
    requires cfg.Valid() && ItemsBelong(cfg, s) && Current(cfg, s, k) && Current(cfg, Step(cfg, s, e), k)
    ensures HasItem(Step(cfg, s, e), k) <==> HasItem(s, k) && !Displaces(cfg, s, e, k)
  {
    if e.Send? {
      SendItems(cfg, s, e, k);
    } else if e.Aborted? {
      AbortItems(cfg, s, e, k);
    } else if e.Tick? || e.Published? || e.Message? {
      OtherItems(cfg, s, e, k);
    } else {
      EndExits(cfg, s, e);
      if Apply(cfg, s, e) != s || Ends(s, e, e.call) {
        var result :| Apply(cfg, s, e) == Exit(s, e.call, result);
        ExitItems(cfg, s, e.call, result, k);
      }
    }
  }

  /** Nothing has displaced the command since it was sent. */
  ghost predicate Undisturbed(cfg: Config, events: seq<Event>, k: nat, sent: nat) {
    forall j: nat :: sent < j < |events| ==> !DisplacedAt(cfg, events, j, k)
  }

  predicate DisplacedAt(cfg: Config, events: seq<Event>, j: nat, k: nat) {
    j < |events| && Displaces(cfg, Run(cfg, NO_COMMANDS, events[..j]), events[j], k)
  }

  lemma UndisturbedNext(cfg: Config, events: seq<Event>, k: nat, sent: nat)
    requires events != [] && sent < |events| - 1
    ensures var n := |events| - 1;
            Undisturbed(cfg, events, k, sent) <==> Undisturbed(cfg, events[..n], k, sent) && !DisplacedAt(cfg, events, n, k)
  {
    var n := |events| - 1;
    forall j: nat | j < n ensures DisplacedAt(cfg, events[..n], j, k) == DisplacedAt(cfg, events, j, k) {
      assert events[..n][..j] == events[..j];
    }
  }

  /** A command keeps what it was sent with, and never comes back. */
  lemma CallStays(cfg: Config, s: State, e: Event, k: nat)
    requires k < |s.calls|
    ensures var c, d := s.calls[k], Step(cfg, s, e).calls[k];
            && k < |Step(cfg, s, e).calls| && d.id == c.id && d.sent == c.sent && d.registered == c.registered
            && (d.InFlight() ==> c.InFlight())
  {
  }

  lemma NewCall(cfg: Config, s: State, e: Event, k: nat)
    requires cfg.Valid() && s.store.Cached? && |s.calls| <= k < |Step(cfg, s, e).calls|
    ensures var t := Step(cfg, s, e);
            e.Send? && k == |s.calls| && t.calls[k].sent == s.steps && (t.calls[k].InFlight() ==> HasItem(t, k))
  {
  }

  lemma {:induction false} StepsCounted(cfg: Config, events: seq<Event>)
    ensures Run(cfg, NO_COMMANDS, events).steps == |events|
    decreases |events|
  {
    if events != [] {
      StepsCounted(cfg, events[..|events| - 1]);
    }
  }

  lemma {:induction false} ItemsExactly(cfg: Config, events: seq<Event>, k: nat)
    requires cfg.Valid() && Current(cfg, Run(cfg, NO_COMMANDS, events), k)
    ensures var s := Run(cfg, NO_COMMANDS, events);
            && s.calls[k].sent < |events|
            && (HasItem(s, k) <==> Undisturbed(cfg, events, k, s.calls[k].sent))
    decreases |events|
  {
    if events != [] {
      var n := |events| - 1;
      var s := Run(cfg, NO_COMMANDS, events[..n]);
      StepsCounted(cfg, events[..n]);
      RunBelongs(cfg, events[..n]);
      if k < |s.calls| {
        CallStays(cfg, s, events[n], k);
        TimePasses(cfg, s, events[n]);
        ItemsExactly(cfg, events[..n], k);
        StepItems(cfg, s, events[n], k);
        UndisturbedNext(cfg, events, k, s.calls[k].sent);
      } else {
        NewCall(cfg, s, events[n], k);
      }
    }
  }

  lemma TimePasses(cfg: Config, s: State, e: Event)
    ensures s.now <= Step(cfg, s, e).now
  {
  }

  /**
   In every run of the cached bot, a command in flight is found by its id exactly if 1.1 timeouts have
   not passed since it was registered, and nothing has displaced it since it was sent.
   */
  lemma FoundExactly(cfg: Config, events: seq<Event>, k: nat)
    requires cfg.Valid()
    requires k < |Run(cfg, NO_COMMANDS, events).calls| && Run(cfg, NO_COMMANDS, events).calls[k].InFlight()
    ensures var s := Run(cfg, NO_COMMANDS, events);
            Found(s.store, s.calls[k].id, s.now) == Some(k)
            <==> s.now < s.calls[k].registered + cfg.timeout * 1.1 && Undisturbed(cfg, events, k, s.calls[k].sent)
  {
    RunBelongs(cfg, events);
    if Current(cfg, Run(cfg, NO_COMMANDS, events), k) {
      ItemsExactly(cfg, events, k);
    }
  }

  /** So once a command has been displaced, no answer reaches it, for the rest of the run. */
  lemma DisplacedHearsNothing(cfg: Config, events: seq<Event>, k: nat, j: nat, topic: string, payload: string)
    requires cfg.Valid() && k < |Run(cfg, NO_COMMANDS, events).calls|
    requires Run(cfg, NO_COMMANDS, events).calls[k].InFlight() && Run(cfg, NO_COMMANDS, events).calls[k].sent < j
    requires DisplacedAt(cfg, events, j, k)
    ensures var s := Run(cfg, NO_COMMANDS, events); Step(cfg, s, Message(topic, payload)).calls[k] == s.calls[k]
  {
    FoundExactly(cfg, events, k);
    NoStaleIds(cfg, NO_COMMANDS, events);
    CallStep(cfg, Run(cfg, NO_COMMANDS, events), Message(topic, payload), k);
  }

  /** A command sent under the id of another one in flight takes over its answers for good. */
  lemma EqualIdDivertsReplies(cfg: Config, events: seq<Event>, k: nat, j: nat, topic: string, payload: string)
    requires cfg.Valid() && cfg.MaxSize() >= 1.0 && k < |Run(cfg, NO_COMMANDS, events).calls|
    requires var s := Run(cfg, NO_COMMANDS, events);
             && s.calls[k].InFlight() && s.calls[k].sent < j < |events| && events[j].Send? && events[j].id == s.calls[k].id
    ensures var s := Run(cfg, NO_COMMANDS, events); Step(cfg, s, Message(topic, payload)).calls[k] == s.calls[k]
  {
    RunBelongs(cfg, events[..j]);
    SentBefore(cfg, events, j, k);
    DisplacedHearsNothing(cfg, events, k, j, topic, payload);
  }

  lemma {:induction false} RunCached(cfg: Config, events: seq<Event>)
    ensures Run(cfg, NO_COMMANDS, events).store.Cached?
    decreases |events|
  {
    if events != [] {
      RunCached(cfg, events[..|events| - 1]);
      StepCached(cfg, Run(cfg, NO_COMMANDS, events[..|events| - 1]), events[|events| - 1]);
    }
  }

  lemma StepCached(cfg: Config, s: State, e: Event)
    requires s.store.Cached?
    ensures Step(cfg, s, e).store.Cached?
  {
  }

  /** The run as far as a step. */
  function Until(cfg: Config, events: seq<Event>, j: nat): State
    requires j <= |events|
  {
    Run(cfg, NO_COMMANDS, events[..j])
  }

  lemma UntilPrefix(cfg: Config, events: seq<Event>, n: nat, j: nat)
    requires j <= n <= |events|
    ensures Until(cfg, events[..n], j) == Until(cfg, events, j)
  {
    assert events[..n][..j] == events[..j];
  }

  /** A command sent before a step is there at that step. */
  lemma {:induction false} SentBefore(cfg: Config, events: seq<Event>, j: nat, k: nat)
    requires cfg.Valid() && k < |Run(cfg, NO_COMMANDS, events).calls| && Run(cfg, NO_COMMANDS, events).calls[k].sent < j < |events|
    ensures k < |Until(cfg, events, j).calls|
    ensures Until(cfg, events, j).calls[k].id == Run(cfg, NO_COMMANDS, events).calls[k].id
    decreases |events|
  {
    var n := |events| - 1;
    SentBeforeLast(cfg, events, k);
    if j < n {
      SentBefore(cfg, events[..n], j, k);
      UntilPrefix(cfg, events, n, j);
    }
  }

  lemma SentBeforeLast(cfg: Config, events: seq<Event>, k: nat)
    requires cfg.Valid() && events != [] && k < |Run(cfg, NO_COMMANDS, events).calls|
    requires Run(cfg, NO_COMMANDS, events).calls[k].sent < |events| - 1
    ensures var s, t := Run(cfg, NO_COMMANDS, events[..|events| - 1]), Run(cfg, NO_COMMANDS, events);
            k < |s.calls| && s.calls[k].id == t.calls[k].id && s.calls[k].sent == t.calls[k].sent
  {
    var n := |events| - 1;
    StepsCounted(cfg, events[..n]);
    RunCached(cfg, events[..n]);
    SentBeforeStep(cfg, Run(cfg, NO_COMMANDS, events[..n]), events[n], k);
  }

  lemma SentBeforeStep(cfg: Config, s: State, e: Event, k: nat)
    requires cfg.Valid() && s.store.Cached? && k < |Step(cfg, s, e).calls| && Step(cfg, s, e).calls[k].sent < s.steps
    ensures k < |s.calls| && s.calls[k].id == Step(cfg, s, e).calls[k].id && s.calls[k].sent == Step(cfg, s, e).calls[k].sent
  {
    if k < |s.calls| { CallStays(cfg, s, e, k); } else { NewCall(cfg, s, e, k); }
  }

  /** A command sent into a full cache makes the least recently used one unfindable. */
  lemma FullCacheForgets(cfg: Config, events: seq<Event>, id: string, payloadType: string)
    requires cfg.Valid() && cfg.timeout * 60.0 >= 1.0
    requires var s := Run(cfg, NO_COMMANDS, events); s.store.Cached? && Full(Expire(s.store.cache, s.now), id, cfg.timeout * 60.0)
    ensures var s := Run(cfg, NO_COMMANDS, events);
            var t := Step(cfg, s, Send(id, payloadType));
            var order := Expire(s.store.cache, s.now).order;
            && order != [] && Found(s.store, order[0], s.now).Some? && Found(t.store, order[0], t.now) == None
            && forall other :: other != order[0] && other != id ==>
                 Found(t.store, other, t.now) == Found(s.store, other, s.now)
  {
    RunBelongs(cfg, events);
    var s := Run(cfg, NO_COMMANDS, events);
    var c, live := s.store.cache, Expire(s.store.cache, s.now);
    FullInsertForgets(c, id, |s.calls|, s.now, cfg.MaxSize(), cfg.Ttl());
    forall other | other != live.order[0] && other != id
      ensures Lookup(Insert(c, id, |s.calls|, s.now, cfg.MaxSize(), cfg.Ttl()).value, other, s.now) == Lookup(c, other, s.now)
    {
      InsertKeepsOthers(c, id, |s.calls|, s.now, cfg.MaxSize(), cfg.Ttl(), other);
    }
  }

  // ---- which item is the least recently used ----

  /** The event uses the item of an id: a command registers under it, or a message finds the command registered under it. */
  predicate Uses(cfg: Config, s: State, e: Event, id: string) {
    match e
    case Send(sent, _) => sent == id && cfg.timeout * 60.0 >= 1.0
    case Message(topic, _) => Answers(topic, id) && Found(s.store, id, s.now).Some?
    case _ => false
  }

  /** The number of the last event that used the id. */
  function LastUse(cfg: Config, events: seq<Event>, id: string): int {
    if events == [] then -1
    else
      var n := |events| - 1;
      if Uses(cfg, Run(cfg, NO_COMMANDS, events[..n]), events[n], id) then n else LastUse(cfg, events[..n], id)
  }

  /** The order is by rank, and no rank reaches n. */
  ghost predicate Ranked(order: seq<string>, rank: string -> int, n: nat) {
    && (forall i, j :: 0 <= i < j < |order| ==> rank(order[i]) < rank(order[j]))
    && (forall i :: 0 <= i < |order| ==> 0 <= rank(order[i]) < n)
  }

  lemma RankedTail(order: seq<string>, rank: string -> int, n: nat)
    requires order != [] && Ranked(order, rank, n)
    ensures Ranked(order[1..], rank, n) && forall k :: k in order[1..] ==> rank(order[0]) < rank(k)
  {
  }

  lemma RankedFirst(first: string, rest: seq<string>, rank: string -> int, n: nat)
    requires Ranked(rest, rank, n) && 0 <= rank(first) < n && forall k :: k in rest ==> rank(first) < rank(k)
    ensures Ranked([first] + rest, rank, n)
  {
  }

  lemma {:induction false} WithoutRanked(order: seq<string>, key: string, rank: string -> int, n: nat)
    requires Ranked(order, rank, n)
    ensures Ranked(Without(order, key), rank, n)
    decreases |order|
  {
    WithoutOrdered(order, key);
    if order != [] {
      RankedTail(order, rank, n);
      WithoutOrdered(order[1..], key);
      WithoutRanked(order[1..], key, rank, n);
      if order[0] != key { RankedFirst(order[0], Without(order[1..], key), rank, n); }
    }
  }

  lemma {:induction false} OnlyRanked(order: seq<string>, keys: set<string>, rank: string -> int, n: nat)
    requires Ranked(order, rank, n)
    ensures Ranked(Only(order, keys), rank, n)
    decreases |order|
  {
    if order != [] {
      RankedTail(order, rank, n);
      OnlyOrdered(order[1..], keys);
      OnlyRanked(order[1..], keys, rank, n);
      if order[0] in keys { RankedFirst(order[0], Only(order[1..], keys), rank, n); }
    }
  }

  /** The ranks are the same but for one key, which has the next rank. */
  ghost predicate NextRank(rank: string -> int, next: string -> int, key: Option<string>, n: nat) {
    forall k :: next(k) == if key == Some(k) then n else rank(k)
  }

  lemma UsedRanked(order: seq<string>, key: string, rank: string -> int, next: string -> int, n: nat)
    requires Ranked(order, rank, n) && NextRank(rank, next, Some(key), n)
    ensures Ranked(Without(order, key) + [key], next, n + 1)
  {
    WithoutRanked(order, key, rank, n);
    WithoutOrdered(order, key);
    var rest := Without(order, key);
    forall i | 0 <= i < |rest| ensures next(rest[i]) == rank(rest[i]) {
      assert rest[i] in rest;
    }
  }

  lemma UnusedRanked(order: seq<string>, rank: string -> int, next: string -> int, n: nat)
    requires Ranked(order, rank, n) && NextRank(rank, next, None, n)
    ensures Ranked(order, next, n + 1)
  {
  }

  lemma {:induction false} EvictRanked(c: Cache<nat>, maxsize: real, rank: string -> int, n: nat)
    requires Ranked(c.order, rank, n)
    ensures Ranked(Evict(c, maxsize).order, rank, n)
    decreases |c.order|
  {
    if c.order != [] && |c.items| as real + 1.0 > maxsize {
      EvictRanked(WithoutFirst(c), maxsize, rank, n);
    }
  }

  lemma InsertRanked(c: Cache<nat>, key: string, value: nat, now: real, maxsize: real, ttl: real, rank: string -> int, n: nat)
    requires Ranked(c.order, rank, n) && maxsize >= 1.0
    ensures exists order :: Ranked(order, rank, n) && Insert(c, key, value, now, maxsize, ttl).value.order == Without(order, key) + [key]
  {
    var live := Expire(c, now);
    OnlyRanked(c.order, live.items.Keys, rank, n);
    EvictRanked(live, maxsize, rank, n);
    var kept := if key in live.items then live else Evict(live, maxsize);
    assert Ranked(kept.order, rank, n);
  }

  lemma SendRanked(cfg: Config, s: State, e: Event, rank: string -> int, next: string -> int, n: nat)
    requires cfg.Valid() && s.store.Cached? && e.Send? && Ranked(s.store.cache.order, rank, n)
    requires NextRank(rank, next, if cfg.timeout * 60.0 >= 1.0 then Some(e.id) else None, n)
    ensures var t := Step(cfg, s, e); t.store.Cached? && Ranked(t.store.cache.order, next, n + 1)
  {
    if cfg.timeout * 60.0 >= 1.0 {
      InsertRanked(s.store.cache, e.id, |s.calls|, s.now, cfg.MaxSize(), cfg.Ttl(), rank, n);
      var order :| Ranked(order, rank, n) && Step(cfg, s, e).store.cache.order == Without(order, e.id) + [e.id];
      UsedRanked(order, e.id, rank, next, n);
    } else {
      UnusedRanked(s.store.cache.order, rank, next, n);
    }
  }

  /** The id whose item a message uses. */
  function UsedBy(s: State, topic: string): Option<string> {
    var parts := Split(topic, '/');
    if |parts| > 10 && parts[1] == "p2p" && Found(s.store, parts[10], s.now).Some? then Some(parts[10]) else None
  }

  lemma MessageRanked(cfg: Config, s: State, e: Event, rank: string -> int, next: string -> int, n: nat)
    requires ItemsBelong(cfg, s) && e.Message? && Ranked(s.store.cache.order, rank, n)
    requires NextRank(rank, next, UsedBy(s, e.topic), n)
    ensures var t := Step(cfg, s, e); t.store.Cached? && Ranked(t.store.cache.order, next, n + 1)
  {
    if UsedBy(s, e.topic).Some? {
      UsedRanked(s.store.cache.order, UsedBy(s, e.topic).value, rank, next, n);
    } else {
      UnusedRanked(s.store.cache.order, rank, next, n);
    }
  }

  lemma OtherRanked(cfg: Config, s: State, e: Event, rank: string -> int, next: string -> int, n: nat)
    requires s.store.Cached? && !e.Send? && !e.Message? && Ranked(s.store.cache.order, rank, n)
    requires NextRank(rank, next, None, n)
    ensures var t := Step(cfg, s, e); t.store.Cached? && Ranked(t.store.cache.order, next, n + 1)
  {
    var id := OrderAfter(cfg, s, e);
    WithoutRanked(s.store.cache.order, id, rank, n);
    UnusedRanked(s.store.cache.order, rank, next, n);
    UnusedRanked(Without(s.store.cache.order, id), rank, next, n);
  }

  /** Other events at most take an id out. */
  lemma OrderAfter(cfg: Config, s: State, e: Event) returns (id: string)
    requires s.store.Cached? && !e.Send? && !e.Message?
    ensures var t := Step(cfg, s, e);
            t.store.Cached? && t.store.cache.order in {s.store.cache.order, Without(s.store.cache.order, id)}
  {
    id := if e.Aborted? then e.id
          else if (e.PublishFailed? || e.Finished? || e.TimedOut? || e.Cancelled?) && e.call < |s.calls| then s.calls[e.call].id
          else "";
  }

  lemma LastUseNext(cfg: Config, events: seq<Event>, id: string)
    requires events != []
    ensures var n := |events| - 1;
            LastUse(cfg, events, id)
            == if Uses(cfg, Run(cfg, NO_COMMANDS, events[..n]), events[n], id) then n else LastUse(cfg, events[..n], id)
  {
  }

  /** In every run the cache orders the ids by their last use, so that the first one is the least recently used. */
  lemma {:induction false} OrderIsByUse(cfg: Config, events: seq<Event>)
    requires cfg.Valid()
    ensures var s := Run(cfg, NO_COMMANDS, events);
            s.store.Cached? && Ranked(s.store.cache.order, id => LastUse(cfg, events, id), |events|)
    decreases |events|
  {
    if events != [] {
      var n := |events| - 1;
      var s, e := Run(cfg, NO_COMMANDS, events[..n]), events[n];
      OrderIsByUse(cfg, events[..n]);
      RunBelongs(cfg, events[..n]);
      var rank, next := (id: string) => LastUse(cfg, events[..n], id), (id: string) => LastUse(cfg, events, id);
      var key := if e.Send? && cfg.timeout * 60.0 >= 1.0 then Some(e.id) else if e.Message? then UsedBy(s, e.topic) else None;
      forall k ensures next(k) == if key == Some(k) then n else rank(k) {
        LastUseNext(cfg, events, k);
      }
      if e.Send? {
        SendRanked(cfg, s, e, rank, next, n);
      } else if e.Message? {
        MessageRanked(cfg, s, e, rank, next, n);
      } else {
        OtherRanked(cfg, s, e, rank, next, n);
      }
    }
  }

  // ---- with distinct ids and enough room ----

  /** Ids are distinct and the cache is large enough, on a run of the cached bot with any timing. */
  ghost predicate Roomy(cfg: Config, events: seq<Event>) {
    events == [] ||
    (var n := |events| - 1;
     var s := Run(cfg, NO_COMMANDS, events[..n]);
     && Roomy(cfg, events[..n])
     && (events[n].Send? || events[n].Aborted? ==> !IdInFlight(s, events[n].id))
     && (events[n].Send? ==> |InFlight(s)| as real + 1.0 <= cfg.MaxSize()))
  }

  ghost predicate DistinctInFlight(s: State) {
    forall i, j :: 0 <= i < j < |s.calls| && s.calls[i].InFlight() && s.calls[j].InFlight() ==>
      s.calls[i].id != s.calls[j].id
  }

  lemma LiveItemsAreInFlight(s: State)
    requires s.store.Cached? && OnlyInFlight(s)
    ensures |Expire(s.store.cache, s.now).items| <= |InFlight(s)|
  {
    var live := Expire(s.store.cache, s.now).items;
    var m := map id | id in live :: live[id].value;
    forall id | id in m ensures m[id] in InFlight(s) && s.calls[m[id]].id == id {
      assert Found(s.store, id, s.now) == Some(m[id]);
    }
    ImageNotLarger(m.Keys, InFlight(s), m);
    assert m.Keys == live.Keys && |live| == |live.Keys|;
  }

  lemma StepDistinct(cfg: Config, s: State, e: Event)
    requires DistinctInFlight(s) && (e.Send? ==> !IdInFlight(s, e.id))
    ensures DistinctInFlight(Step(cfg, s, e))
  {
    var t := Step(cfg, s, e);
    CallStepCount(cfg, s, e);
    forall i, j | 0 <= i < j < |t.calls| && t.calls[i].InFlight() && t.calls[j].InFlight()
      ensures t.calls[i].id != t.calls[j].id
    {
      CallStays(cfg, s, e, i);
      if j < |s.calls| { CallStays(cfg, s, e, j); }
    }
  }

  lemma {:induction false} RunDistinct(cfg: Config, events: seq<Event>)
    requires cfg.Valid() && Roomy(cfg, events)
    ensures DistinctInFlight(Run(cfg, NO_COMMANDS, events))
    decreases |events|
  {
    if events != [] {
      RunDistinct(cfg, events[..|events| - 1]);
      StepDistinct(cfg, Run(cfg, NO_COMMANDS, events[..|events| - 1]), events[|events| - 1]);
    }
  }

  lemma RoomyDisplacesNothing(cfg: Config, s: State, e: Event, k: nat)
    requires OnlyInFlight(s) && DistinctInFlight(s) && k < |s.calls| && s.calls[k].InFlight() && s.store.Cached?
    requires e.Send? || e.Aborted? ==> !IdInFlight(s, e.id)
    requires e.Send? ==> |InFlight(s)| as real + 1.0 <= cfg.MaxSize()
    ensures !Displaces(cfg, s, e, k)
  {
    LiveItemsAreInFlight(s);
  }

  lemma {:induction false} RoomyUndisturbed(cfg: Config, events: seq<Event>, k: nat)
    requires cfg.Valid() && Roomy(cfg, events)
    requires k < |Run(cfg, NO_COMMANDS, events).calls| && Run(cfg, NO_COMMANDS, events).calls[k].InFlight()
    ensures Undisturbed(cfg, events, k, Run(cfg, NO_COMMANDS, events).calls[k].sent)
    decreases |events|
  {
    if events != [] {
      var n := |events| - 1;
      var s := Run(cfg, NO_COMMANDS, events[..n]);
      StepsCounted(cfg, events[..n]);
      RunBelongs(cfg, events[..n]);
      if k < |s.calls| {
        CallStays(cfg, s, events[n], k);
        RoomyUndisturbed(cfg, events[..n], k);
        NoStaleIds(cfg, NO_COMMANDS, events[..n]);
        RunDistinct(cfg, events[..n]);
        RoomyDisplacesNothing(cfg, s, events[n], k);
        if s.calls[k].sent < n { UndisturbedNext(cfg, events, k, s.calls[k].sent); }
      } else {
        NewCall(cfg, s, events[n], k);
      }
    }
  }

  /** Whatever the timing, a command in flight then hears its answers exactly until 1.1 timeouts after it was registered. */
  lemma HeardExactlyUntilExpiry(cfg: Config, events: seq<Event>, k: nat)
    requires cfg.Valid() && Roomy(cfg, events)
    requires k < |Run(cfg, NO_COMMANDS, events).calls| && Run(cfg, NO_COMMANDS, events).calls[k].InFlight()
    ensures var s := Run(cfg, NO_COMMANDS, events);
            Found(s.store, s.calls[k].id, s.now) == Some(k) <==> s.now < s.calls[k].registered + cfg.timeout * 1.1
  {
    FoundExactly(cfg, events, k);
    RoomyUndisturbed(cfg, events, k);
  }

  /** So a wait can outlast its entry exactly when publishing took more than a tenth of the timeout. */
  lemma WaitOutlastsEntryExactlyAfterSlowPublish(cfg: Config, s: State, k: nat)
    requires cfg.Valid() && k < |s.calls| && s.calls[k].phase.Publishing?
    ensures var c := Step(cfg, s, Published(k)).calls[k];
            c.phase.Waiting? && (c.phase.deadline > c.registered + cfg.Ttl() <==> s.now > c.registered + cfg.timeout / 10.0)
  {
  }
}
