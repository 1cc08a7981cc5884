/**
 The documented behaviour of cachetools.TTLCache, as far as bumper uses it: items expire after a
 fixed time, and the least recently used one makes room for a new key when the cache is full.
 */
module TtlCache {
  import opened Results

  datatype Item<V> = Item(value: V, expires: real)

  /** The items by key, and their keys in the order of use, the least recently used first. */
  datatype Cache<V> = Cache(items: map<string, Item<V>>, order: seq<string>)

  function Empty<V>(): Cache<V> {
    Cache(map[], [])
  }

  function Without(order: seq<string>, key: string): seq<string> {
    if order == [] then []
    else if order[0] == key then Without(order[1..], key)
    else [order[0]] + Without(order[1..], key)
  }

  function Only(order: seq<string>, keys: set<string>): seq<string> {
    if order == [] then []
    else if order[0] in keys then [order[0]] + Only(order[1..], keys)
    else Only(order[1..], keys)
  }

  predicate Fresh<V>(i: Item<V>, now: real) {
    now < i.expires
  }

  function Expire<V>(c: Cache<V>, now: real): Cache<V> {
    var items := map key | key in c.items && Fresh(c.items[key], now) :: c.items[key];
    Cache(items, Only(c.order, items.Keys))
  }

  /** cache[key], if key in cache. */
  function Lookup<V>(c: Cache<V>, key: string, now: real): Option<V> {
    if key in c.items && Fresh(c.items[key], now) then Some(c.items[key].value) else None
  }

  function Remove<V>(c: Cache<V>, key: string): Cache<V> {
    Cache(c.items - {key}, Without(c.order, key))
  }

  /** Reading an item makes it the most recently used one. */
  function Touch<V>(c: Cache<V>, key: string): Cache<V> {
    if key in c.items then c.(order := Without(c.order, key) + [key]) else c
  }

  function WithoutFirst<V>(c: Cache<V>): Cache<V>
    requires c.order != []
  {
    Cache(c.items - {c.order[0]}, c.order[1..])
  }

  /** Makes room for one more item. */
  function Evict<V>(c: Cache<V>, maxsize: real): Cache<V>
    decreases |c.order|
  {
    if c.order != [] && |c.items| as real + 1.0 > maxsize then
      Evict(WithoutFirst(c), maxsize)
    else c
  }

  function Put<V>(c: Cache<V>, key: string, value: V, expires: real): Cache<V> {
    Cache(c.items[key := Item(value, expires)], Without(c.order, key) + [key])
  }

  /** cache[key] = value; None stands for the ValueError of a cache that is too small for any item. */
  function Insert<V>(c: Cache<V>, key: string, value: V, now: real, maxsize: real, ttl: real): Option<Cache<V>> {
    if maxsize < 1.0 then None
    else
      var live := Expire(c, now);
      var kept := if key in live.items then live else Evict(live, maxsize);
      Some(Put(kept, key, value, now + ttl))
  }

  /** cache.pop(key, None): an expired item stays where it is. */
  function Pop<V>(c: Cache<V>, key: string, now: real): Cache<V> {
    if Lookup(c, key, now).Some? then Remove(c, key) else c
  }

  /** The items of c are items of d. */
  ghost predicate Within<V>(c: Cache<V>, d: Cache<V>) {
    forall key :: key in c.items ==> key in d.items && c.items[key] == d.items[key]
  }

  lemma {:induction false} EvictWithin<V>(c: Cache<V>, maxsize: real)
    ensures Within(Evict(c, maxsize), c)
    ensures |c.items| as real + 1.0 <= maxsize ==> Evict(c, maxsize) == c
    decreases |c.order|
  {
    if c.order != [] && |c.items| as real + 1.0 > maxsize {
      EvictWithin(WithoutFirst(c), maxsize);
    }
  }

  /** Inserting stores the new item; what else is in the cache was there before and has not expired. */
  lemma InsertStores<V>(c: Cache<V>, key: string, value: V, now: real, maxsize: real, ttl: real)
    requires Insert(c, key, value, now, maxsize, ttl).Some?
    ensures var d := Insert(c, key, value, now, maxsize, ttl).value;
            && key in d.items && d.items[key] == Item(value, now + ttl)
            && forall k :: k in d.items && k != key ==> k in c.items && d.items[k] == c.items[k] && Fresh(c.items[k], now)
  {
    EvictWithin(Expire(c, now), maxsize);
  }

  // ---- a cache in order, and which items make room ----

  ghost predicate NoRepeats(order: seq<string>) {
    forall i, j :: 0 <= i < j < |order| ==> order[i] != order[j]
  }

  /** The order lists each key once, and the size is within bounds. */
  ghost predicate InOrder<V>(c: Cache<V>, maxsize: real) {
    && NoRepeats(c.order)
    && (forall key :: key in c.order <==> key in c.items)
    && |c.items| as real <= maxsize
  }

  lemma {:induction false} WithoutOrdered(order: seq<string>, key: string)
    ensures forall k :: k in Without(order, key) <==> k in order && k != key
    ensures NoRepeats(order) ==> NoRepeats(Without(order, key))
    decreases |order|
  {
    if order != [] {
      var rest := order[1..];
      WithoutOrdered(rest, key);
      assert forall k :: k in order <==> k == order[0] || k in rest;
      if NoRepeats(order) && order[0] != key {
        assert order[0] !in rest;
        assert order[0] !in Without(rest, key);
      }
    }
  }

  lemma {:induction false} OnlyOrdered(order: seq<string>, keys: set<string>)
    ensures forall k :: k in Only(order, keys) <==> k in order && k in keys
    ensures NoRepeats(order) ==> NoRepeats(Only(order, keys))
    decreases |order|
  {
    if order != [] {
      OnlyOrdered(order[1..], keys);
      assert forall k :: k in order <==> k == order[0] || k in order[1..];
    }
  }

  lemma FewerKeys<V>(m: map<string, V>, n: map<string, V>)
    requires m.Keys <= n.Keys
    ensures |m| <= |n|
  {
    SmallerSet(m.Keys, n.Keys);
    assert |m| == |m.Keys| && |n| == |n.Keys|;
  }

  lemma {:induction false} SmallerSet(a: set<string>, b: set<string>)
    requires a <= b
    ensures |a| <= |b|
    decreases a
  {
    if a != {} {
      var x :| x in a;
      SmallerSet(a - {x}, b - {x});
    }
  }

  lemma ExpireInOrder<V>(c: Cache<V>, now: real, maxsize: real)
    requires InOrder(c, maxsize)
    ensures InOrder(Expire(c, now), maxsize)
  {
    OnlyOrdered(c.order, Expire(c, now).items.Keys);
    FewerKeys(Expire(c, now).items, c.items);
  }

  lemma TouchInOrder<V>(c: Cache<V>, key: string, maxsize: real)
    requires InOrder(c, maxsize)
    ensures InOrder(Touch(c, key), maxsize)
  {
    WithoutOrdered(c.order, key);
  }

  lemma PopInOrder<V>(c: Cache<V>, key: string, now: real, maxsize: real)
    requires InOrder(c, maxsize)
    ensures InOrder(Pop(c, key, now), maxsize)
  {
    WithoutOrdered(c.order, key);
    FewerKeys(c.items - {key}, c.items);
  }

  /** The cache is full for a new key. */
  predicate Full<V>(live: Cache<V>, key: string, maxsize: real) {
    key !in live.items && |live.items| as real + 1.0 > maxsize
  }

  /** k is the item that makes room for a new key: the least recently used one of a full cache. */
  predicate MakesRoom<V>(live: Cache<V>, key: string, maxsize: real, k: string) {
    Full(live, key, maxsize) && live.order != [] && live.order[0] == k
  }

  /** One item is enough to make room. */
  lemma EvictsOne<V>(live: Cache<V>, key: string, maxsize: real)
    requires InOrder(live, maxsize) && maxsize >= 1.0 && Full(live, key, maxsize)
    ensures live.order != [] && Evict(live, maxsize) == WithoutFirst(live)
  {
    assert live.items != map[];
    var any :| any in live.items;
    assert any in live.order;
    var less := WithoutFirst(live);
    assert less.items.Keys == live.items.Keys - {live.order[0]};
    assert |less.items| == |less.items.Keys| && |live.items| == |live.items.Keys|;
    assert Evict(less, maxsize) == less;
  }

  /** What inserting keeps: everything that has not expired, except the item that makes room. */
  lemma InsertKeepsExactly<V>(c: Cache<V>, key: string, value: V, now: real, maxsize: real, ttl: real)
    requires InOrder(c, maxsize) && maxsize >= 1.0
    ensures var d, live := Insert(c, key, value, now, maxsize, ttl), Expire(c, now);
            && d.Some? && InOrder(d.value, maxsize)
            && forall k :: k != key ==>
                 (k in d.value.items <==> k in live.items && !MakesRoom(live, key, maxsize, k))
                 && (k in d.value.items ==> d.value.items[k] == live.items[k])
  {
    var live := Expire(c, now);
    ExpireInOrder(c, now, maxsize);
    if Full(live, key, maxsize) { EvictsOne(live, key, maxsize); }
    var kept := if key in live.items then live else Evict(live, maxsize);
    assert kept == if Full(live, key, maxsize) then WithoutFirst(live) else live;
    KeptInOrder(live, key, maxsize, kept);
    PutInOrder(kept, key, value, now + ttl, maxsize);
  }

  /** The least recently used item of a full cache is still there, and goes when a key is inserted. */
  lemma FullInsertForgets<V>(c: Cache<V>, key: string, value: V, now: real, maxsize: real, ttl: real)
    requires InOrder(c, maxsize) && maxsize >= 1.0 && Full(Expire(c, now), key, maxsize)
    ensures var d, order := Insert(c, key, value, now, maxsize, ttl), Expire(c, now).order;
            d.Some? && order != [] && Lookup(c, order[0], now).Some? && Lookup(d.value, order[0], now) == None
  {
    var live := Expire(c, now);
    ExpireInOrder(c, now, maxsize);
    EvictsOne(live, key, maxsize);
    assert live.order[0] in live.order;
    InsertKeepsExactly(c, key, value, now, maxsize, ttl);
  }

  /** And all others stay. */
  lemma InsertKeepsOthers<V>(c: Cache<V>, key: string, value: V, now: real, maxsize: real, ttl: real, other: string)
    requires InOrder(c, maxsize) && maxsize >= 1.0 && other != key && !MakesRoom(Expire(c, now), key, maxsize, other)
    ensures var d := Insert(c, key, value, now, maxsize, ttl);
            d.Some? && Lookup(d.value, other, now) == Lookup(c, other, now)
  {
    InsertKeepsExactly(c, key, value, now, maxsize, ttl);
  }

  lemma KeptInOrder<V>(live: Cache<V>, key: string, maxsize: real, kept: Cache<V>)
    requires InOrder(live, maxsize) && maxsize >= 1.0 && (Full(live, key, maxsize) ==> live.order != [])
    requires kept == if Full(live, key, maxsize) then WithoutFirst(live) else live
    ensures InOrder(kept, maxsize) && (key in kept.items || |kept.items| as real + 1.0 <= maxsize)
  {
    if Full(live, key, maxsize) {
      assert live.order[0] in live.order;
      assert forall k :: k in live.order <==> k == live.order[0] || k in live.order[1..];
      assert kept.items.Keys == live.items.Keys - {live.order[0]};
      assert |kept.items| == |kept.items.Keys| && |live.items| == |live.items.Keys|;
    }
  }

  lemma PutInOrder<V>(c: Cache<V>, key: string, value: V, expires: real, maxsize: real)
    requires InOrder(c, maxsize) && (key in c.items || |c.items| as real + 1.0 <= maxsize)
    ensures InOrder(Put(c, key, value, expires), maxsize)
  {
    WithoutOrdered(c.order, key);
    var d := Put(c, key, value, expires);
    assert d.items.Keys == c.items.Keys + {key};
    assert |d.items| == |d.items.Keys| && |c.items| == |c.items.Keys|;
  }

  // ---- when nothing has expired and the cache is not full, it is a plain dictionary ----

  /** All items of c are fresh, and they are those of m. */
  ghost predicate Mirrors<V>(c: Cache<V>, m: map<string, V>, now: real) {
    && c.items.Keys == m.Keys
    && forall key :: key in m ==> c.items[key].value == m[key] && Fresh(c.items[key], now)
  }

  lemma InsertMirrors<V>(c: Cache<V>, m: map<string, V>, key: string, value: V, now: real, maxsize: real, ttl: real)
    requires Mirrors(c, m, now) && ttl > 0.0 && |m| as real + 1.0 <= maxsize
    ensures var d := Insert(c, key, value, now, maxsize, ttl);
            d.Some? && Mirrors(d.value, m[key := value], now)
  {
    var live := Expire(c, now);
    assert live.items == c.items;
    assert |c.items| == |c.items.Keys| == |m.Keys| == |m|;
    EvictWithin(live, maxsize);
  }

  /** In that case looking up, touching and popping are the dictionary's operations. */
  lemma OperationsMirror<V>(c: Cache<V>, m: map<string, V>, key: string, now: real)
    requires Mirrors(c, m, now)
    ensures Lookup(c, key, now) == if key in m then Some(m[key]) else None
    ensures Mirrors(Touch(c, key), m, now)
    ensures Mirrors(Pop(c, key, now), m - {key}, now)
  {
  }

  // ---- the operations do not look at the values ----

  function MapValues<V, W>(c: Cache<V>, f: V -> W): Cache<W> {
    Cache(map key | key in c.items :: Item(f(c.items[key].value), c.items[key].expires), c.order)
  }

  lemma MappedSize<V, W>(c: Cache<V>, f: V -> W)
    ensures |MapValues(c, f).items| == |c.items|
  {
    var d := MapValues(c, f);
    assert c.items.Keys == d.items.Keys;
    assert |c.items| == |c.items.Keys| && |d.items| == |d.items.Keys|;
  }

  lemma WithoutFirstMapped<V, W>(c: Cache<V>, f: V -> W)
    requires c.order != []
    ensures MapValues(WithoutFirst(c), f) == WithoutFirst(MapValues(c, f))
  {
    assert MapValues(WithoutFirst(c), f).items == WithoutFirst(MapValues(c, f)).items;
  }

  lemma {:induction false} EvictMapped<V, W>(c: Cache<V>, f: V -> W, maxsize: real)
    ensures MapValues(Evict(c, maxsize), f) == Evict(MapValues(c, f), maxsize)
    decreases |c.order|
  {
    MappedSize(c, f);
    if c.order != [] && |c.items| as real + 1.0 > maxsize {
      EvictMapped(WithoutFirst(c), f, maxsize);
      WithoutFirstMapped(c, f);
    }
  }

  lemma ExpireMapped<V, W>(c: Cache<V>, f: V -> W, now: real)
    ensures MapValues(Expire(c, now), f) == Expire(MapValues(c, f), now)
  {
    assert Expire(c, now).items.Keys == Expire(MapValues(c, f), now).items.Keys;
  }

  lemma InsertMapped<V, W>(c: Cache<V>, f: V -> W, key: string, value: V, now: real, maxsize: real, ttl: real)
    ensures match Insert(c, key, value, now, maxsize, ttl)
            case None => Insert(MapValues(c, f), key, f(value), now, maxsize, ttl) == None
            case Some(d) => Insert(MapValues(c, f), key, f(value), now, maxsize, ttl) == Some(MapValues(d, f))
  {
    ExpireMapped(c, f, now);
    EvictMapped(Expire(c, now), f, maxsize);
    if maxsize >= 1.0 {
      var live := Expire(c, now);
      PutMapped(if key in live.items then live else Evict(live, maxsize), f, key, value, now + ttl);
    }
  }

  lemma PutMapped<V, W>(c: Cache<V>, f: V -> W, key: string, value: V, expires: real)
    ensures MapValues(Put(c, key, value, expires), f) == Put(MapValues(c, f), key, f(value), expires)
  {
    assert MapValues(Put(c, key, value, expires), f).items == Put(MapValues(c, f), key, f(value), expires).items;
  }

  lemma OperationsMapped<V, W>(c: Cache<V>, f: V -> W, key: string, now: real)
    ensures Lookup(MapValues(c, f), key, now) ==
            match Lookup(c, key, now)
            case None => None
            case Some(v) => Some(f(v))
    ensures Touch(MapValues(c, f), key) == MapValues(Touch(c, key), f)
    ensures Pop(MapValues(c, f), key, now) == MapValues(Pop(c, key, now), f)
  {
  }
}
