/**
 Snapshot pins: the cache in front of the store, and the in-memory store.

 A cache hit is returned without another look at expiry, so a cached list may hold pins
 that have expired.  The law kept here is the other direction: no active pin is missing.
 */
module Pins {
  import opened Common
  import opened Timestamps

  /** Tenant ids are UUIDs; what matters is that they hold no slash. */
  type TenantId = s: string | '/' !in s witness ""

  datatype TableKey = TableKey(tenant: TenantId, namespace: string, table: string)

  datatype Pin = Pin(
    name: string, principal: string, snapshotId: string, pinnedAt: Instant, expiry: Instant,
    table: string, namespace: string)

  /** The table that a pin is for. */
  function KeyOf(tenant: TenantId, p: Pin): TableKey {
    TableKey(tenant, p.namespace, p.table)
  }

  /** The LRU; a full one gives up an arbitrary other key. */
  class PinLRU<V> {
    const size: nat
    var entries: map<TableKey, V>

    ghost predicate Valid()
      reads this
    {
      0 < size && |entries| <= size
    }

    constructor (size: nat)
      requires size > 0
      ensures Valid() && entries == map[] && this.size == size
    {
      this.size := size;
      this.entries := map[];
    }

    method Get(key: TableKey) returns (r: Option<V>)
      ensures r == if key in entries then Some(entries[key]) else None
    {
      return if key in entries then Some(entries[key]) else None;
    }

    method Add(key: TableKey, pins: V) returns (evicted: bool)
      requires Valid()
      modifies this
      ensures Valid() && LruAdded(old(entries), entries, key, pins, size)
      ensures evicted <==> key !in old(entries) && |old(entries)| == size
    {
      if key !in entries && |entries| >= size {
        var victim :| victim in entries;
        entries := (entries - {victim})[key := pins];
        evicted := true;
      } else {
        entries := entries[key := pins];
        evicted := false;
      }
      LruAddKeepsSize(old(entries), entries, key, pins, size);
    }

    method Invalidate(key: TableKey)
      requires Valid()
      modifies this
      ensures Valid() && entries == old(entries) - {key}
    {
      entries := entries - {key};
      assert entries.Keys <= old(entries).Keys;
      FewerKeys(entries, old(entries));
    }
  }

  datatype LruOp<V> = Put(key: TableKey, value: V) | Drop(key: TableKey)

  ghost predicate LruStep<V>(m: map<TableKey, V>, op: LruOp<V>, m': map<TableKey, V>, size: nat) {
    match op
    case Put(key, value) => LruAdded(m, m', key, value, size)
    case Drop(key) => m' == m - {key}
  }

  ghost predicate LruStepAt<V>(size: nat, run: seq<map<TableKey, V>>, ops: seq<LruOp<V>>, n: nat)
    requires |run| == |ops| + 1 && n < |ops|
  {
    LruStep(run[n], ops[n], run[n + 1], size)
  }

  /** What a look-up finds was put there by the latest operation on its key: never an older or dropped list. */
  lemma {:induction false} CachedIsLatest<V>(
      size: nat, run: seq<map<TableKey, V>>, ops: seq<LruOp<V>>, n: nat, key: TableKey)
    returns (l: nat)
    requires |run| == |ops| + 1 && n < |run| && run[0] == map[] && key in run[n]
    requires forall m: nat :: m < |ops| ==> LruStepAt(size, run, ops, m)
    ensures l < n && ops[l] == Put(key, run[n][key])
    ensures forall j :: l < j < n ==> ops[j].key != key
  {
    assert n > 0;
    assert LruStepAt(size, run, ops, n - 1);
    if ops[n - 1].key == key {
      l := n - 1;
    } else {
      l := CachedIsLatest(size, run, ops, n - 1, key);
    }
  }

  /** Sizes below one are refused. */
  method NewPinLRU<V>(size: int) returns (c: PinLRU?<V>)
    ensures c == null <==> size <= 0
    ensures c != null ==> fresh(c) && c.Valid() && c.size == size && c.entries == map[]
  {
    if size <= 0 {
      return null;
    }
    c := new PinLRU(size);
  }

  lemma FewerKeys<K, V>(a: map<K, V>, b: map<K, V>)
    requires a.Keys <= b.Keys
    ensures |a| <= |b|
  {
    SubsetSize(a.Keys, b.Keys);
  }

  lemma {:induction false} SubsetSize<K>(a: set<K>, b: set<K>)
    requires a <= b
    ensures |a| <= |b|
    decreases a
  {
    if x :| x in a {
      SubsetSize(a - {x}, b - {x});
    }
  }
}

/** The in-memory store. */
module MemPins {
  import opened Common
  import opened Timestamps
  import opened Pins

  type Listing = seq<Pin>

  function StoreKey(tenant: TenantId, name: string): string {
    tenant + "/" + name
  }

  predicate HasPrefix(s: string, p: string) {
    |p| <= |s| && s[..|p|] == p
  }

  /** The part of a store key before its first slash. */
  function TenantOf(key: string): TenantId {
    if key == "" || key[0] == '/' then "" else [key[0]] + TenantOf(key[1..])
  }

  lemma {:induction false} TenantOfStoreKey(tenant: TenantId, name: string)
    ensures TenantOf(StoreKey(tenant, name)) == tenant
    decreases |tenant|
  {
    var k := StoreKey(tenant, name);
    if tenant != "" {
      assert tenant[0] in tenant;
      var rest: TenantId := tenant[1..];
      assert k[1..] == StoreKey(rest, name);
      TenantOfStoreKey(rest, name);
    }
  }

  /** A store key starts with a tenant's prefix only if it is that tenant's. */
  lemma PrefixNamesTenant(t: TenantId, u: TenantId, name: string)
    ensures HasPrefix(StoreKey(t, name), u + "/") <==> t == u
  {
    var k := StoreKey(t, name);
    TenantOfStoreKey(t, name);
    if HasPrefix(k, u + "/") {
      var rest := k[|u| + 1..];
      assert k == (u + "/") + rest;
      assert k == StoreKey(u, rest);
      TenantOfStoreKey(u, rest);
    }
    if t == u {
      assert k[..|u + "/"|] == u + "/";
    }
  }

  predicate Selected(k: string, p: Pin, key: TableKey, now: Instant) {
    HasPrefix(k, key.tenant + "/") && p.table == key.table && p.namespace == key.namespace && p.expiry > now
  }

  /** The pins under `keys` of a table that are active at `now`. */
  function ActiveUnder(pins: map<string, Pin>, keys: set<string>, key: TableKey, now: Instant): set<Pin> {
    set k | k in keys && k in pins && Selected(k, pins[k], key, now) :: pins[k]
  }

  /** The pins of a table that are active at `now`. */
  function Active(pins: map<string, Pin>, key: TableKey, now: Instant): set<Pin> {
    set k | k in pins && Selected(k, pins[k], key, now) :: pins[k]
  }

  lemma OneMoreKey(pins: map<string, Pin>, keys: set<string>, k: string, key: TableKey, now: Instant)
    requires k in pins
    ensures ActiveUnder(pins, keys + {k}, key, now) ==
      ActiveUnder(pins, keys, key, now) + if Selected(k, pins[k], key, now) then {pins[k]} else {}
  {
    var a, b := ActiveUnder(pins, keys + {k}, key, now), ActiveUnder(pins, keys, key, now);
    forall p
      ensures p in a <==> p in b || (p == pins[k] && Selected(k, pins[k], key, now))
    {
      if p in a {
        var j :| j in keys + {k} && j in pins && Selected(j, pins[j], key, now) && pins[j] == p;
      }
    }
  }

  lemma ListOneMore(l: Listing, s: set<Pin>, p: Pin)
    requires Lists(l, s)
    ensures Lists(l + [p], s + {p})
  {
    assert forall q :: q in l + [p] <==> q in l || q == p;
  }

  ghost predicate Lists(l: Listing, s: set<Pin>) {
    (set p | p in l) == s
  }

  /** Every unexpired pin that the tenant issued for the table is listed. */
  ghost predicate ListsAllOf(pins: map<string, Pin>, key: TableKey, now: Instant, l: Listing) {
    forall name ::
      var k := key.tenant + "/" + name;
      k in pins && pins[k].table == key.table && pins[k].namespace == key.namespace && now < pins[k].expiry ==>
        pins[k] in l
  }

  lemma ListIsWhole(pins: map<string, Pin>, key: TableKey, now: Instant, l: Listing)
    requires Lists(l, Active(pins, key, now))
    ensures forall p :: p in l ==> p.table == key.table && p.namespace == key.namespace && now < p.expiry
    ensures ListsAllOf(pins, key, now, l)
  {
    forall name
      ensures
        var k := key.tenant + "/" + name;
        k in pins && pins[k].table == key.table && pins[k].namespace == key.namespace && now < pins[k].expiry ==>
          pins[k] in l
    {
      var k := StoreKey(key.tenant, name);
      PrefixNamesTenant(key.tenant, key.tenant, name);
      if k in pins && Selected(k, pins[k], key, now) {
        assert pins[k] in Active(pins, key, now);
        assert pins[k] in (set p | p in l);
      }
    }
    forall p | p in l
      ensures p in Active(pins, key, now)
    {
      assert p in (set q | q in l);
    }
  }

  datatype State = State(pins: map<string, Pin>, cache: map<TableKey, Listing>)

  function AfterUpsert(s: State, tenant: TenantId, p: Pin): State {
    State(s.pins[StoreKey(tenant, p.name) := p], s.cache - {KeyOf(tenant, p)})
  }

  function ExpiredKeys(pins: map<string, Pin>, now: Instant): set<string> {
    set k | k in pins && pins[k].expiry <= now
  }

  /** The tables of the pins under `keys`. */
  function TablesOf(pins: map<string, Pin>, keys: set<string>): set<TableKey> {
    set k | k in keys && k in pins :: KeyOf(TenantOf(k), pins[k])
  }

  /** The store without the pins under `keys` and without the cached lists of their tables. */
  function Without(s: State, keys: set<string>): State {
    State(s.pins - keys, s.cache - TablesOf(s.pins, keys))
  }

  /** The sweep drops what has expired and the cached lists of its tables. */
  function AfterSweep(s: State, now: Instant): State {
    Without(s, ExpiredKeys(s.pins, now))
  }

  /** No pin of the table that the tenant issued has expired by `now`. */
  ghost predicate SweepLeaves(pins: map<string, Pin>, key: TableKey, now: Instant) {
    forall name ::
      var k := key.tenant + "/" + name;
      k in pins && pins[k].namespace == key.namespace && pins[k].table == key.table ==> now < pins[k].expiry
  }

  lemma SweptTablesGo(s: State, key: TableKey, now: Instant)
    ensures key in AfterSweep(s, now).cache ==> key in s.cache && SweepLeaves(s.pins, key, now)
  {
    forall name
      ensures
        var k := key.tenant + "/" + name;
        k in s.pins && KeyOf(key.tenant, s.pins[k]) == key && s.pins[k].expiry <= now ==>
          key in TablesOf(s.pins, ExpiredKeys(s.pins, now))
    {
      var k := StoreKey(key.tenant, name);
      TenantOfStoreKey(key.tenant, name);
      if k in s.pins && s.pins[k].expiry <= now {
        assert k in ExpiredKeys(s.pins, now);
      }
    }
  }

  lemma FewerBySome(pins: map<string, Pin>, keys: set<string>)
    requires keys <= pins.Keys
    ensures |pins - keys| + |keys| == |pins|
  {
    assert (pins - keys).Keys == pins.Keys - keys;
  }

  /** An upserted pin is active for its table exactly until it expires. */
  lemma UpsertIsActiveIff(s: State, t: TenantId, p: Pin, now: Instant)
    ensures p in Active(AfterUpsert(s, t, p).pins, TableKey(t, p.namespace, p.table), now) <==> now < p.expiry
  {
    var pins', k := AfterUpsert(s, t, p).pins, StoreKey(t, p.name);
    PrefixNamesTenant(t, t, p.name);
    assert k in pins' && pins'[k] == p;
  }

  /** The store without one pin and the cached list of its table. */
  function Minus(s: State, k: string): State
    requires k in s.pins
  {
    State(s.pins - {k}, s.cache - {KeyOf(TenantOf(k), s.pins[k])})
  }

  lemma WithoutOneMore(s: State, keys: set<string>, k: string, more: set<string>)
    requires k in s.pins && k !in keys && more == keys + {k}
    ensures k in Without(s, keys).pins && Without(s, more) == Minus(Without(s, keys), k)
  {
    assert TablesOf(s.pins, more) == TablesOf(s.pins, keys) + {KeyOf(TenantOf(k), s.pins[k])};
    assert s.pins - more == s.pins - keys - {k};
    var a, b := TablesOf(s.pins, keys), KeyOf(TenantOf(k), s.pins[k]);
    assert s.cache - (a + {b}) == s.cache - a - {b};
  }

  class PinStore {
    const cache: PinLRU<Listing>
    var pins: map<string, Pin>

    ghost predicate Valid()
      reads this, cache
    {
      cache.Valid()
    }

    function Contents(): State
      reads this, cache
    {
      State(pins, cache.entries)
    }

    constructor (cache: PinLRU<Listing>)
      requires cache.Valid()
      ensures Valid() && this.cache == cache && pins == map[]
    {
      this.cache := cache;
      this.pins := map[];
    }

    /** Writes the pin, then drops the cached list of its table. */
    method UpsertSnapshotPin(tenant: Option<TenantId>, p: Pin) returns (ok: bool)
      requires Valid()
      modifies this, cache
      ensures Valid() && ok == tenant.Some?
      ensures Contents() == if ok then AfterUpsert(old(Contents()), tenant.value, p) else old(Contents())
      ensures ok ==>
        && pins == old(pins)[tenant.value + "/" + p.name := p]
        && cache.entries == old(cache.entries) - {TableKey(tenant.value, p.namespace, p.table)}
    {
      if tenant.None? {
        return false;
      }
      pins := pins[StoreKey(tenant.value, p.name) := p];
      cache.Invalidate(KeyOf(tenant.value, p));
      return true;
    }

    /** The cached list if there is one; else the active pins, which are then cached. */
    method ActivePinsForTable(tenant: Option<TenantId>, namespace: seq<string>, table: string, now: Instant)
      returns (r: Reply<Listing>)
      requires Valid()
      modifies cache
      ensures Valid() && pins == old(pins)
      ensures r.Failed? <==> tenant.None?
      ensures r.Failed? ==> cache.entries == old(cache.entries)
      ensures r.Answer? ==>
        var key := TableKey(tenant.value, JoinNamespace(namespace), table);
        if key in old(cache.entries) then r.value == old(cache.entries)[key] && cache.entries == old(cache.entries)
        else
          && Lists(r.value, Active(pins, key, now))
          && LruAdded(old(cache.entries), cache.entries, key, r.value, cache.size)
          && (forall p :: p in r.value ==> p.table == table && p.namespace == key.namespace && now < p.expiry)
          && ListsAllOf(pins, key, now, r.value)
    {
      if tenant.None? {
        return Failed;
      }
      var key := TableKey(tenant.value, JoinNamespace(namespace), table);
      var cached := cache.Get(key);
      if cached.Some? {
        return Answer(cached.value);
      }
      var out: Listing := [];
      var rest := pins.Keys;
      while rest != {}
        invariant rest <= pins.Keys && Valid() && cache.entries == old(cache.entries)
        invariant Lists(out, ActiveUnder(pins, pins.Keys - rest, key, now))
        decreases rest
      {
        var k :| k in rest;
        ghost var before := ActiveUnder(pins, pins.Keys - rest, key, now);
        OneMoreKey(pins, pins.Keys - rest, k, key, now);
        assert pins.Keys - (rest - {k}) == pins.Keys - rest + {k};
        rest := rest - {k};
        if Selected(k, pins[k], key, now) {
          ListOneMore(out, before, pins[k]);
          out := out + [pins[k]];
        }
      }
      assert pins.Keys - rest == pins.Keys;
      assert ActiveUnder(pins, pins.Keys, key, now) == Active(pins, key, now);
      ListIsWhole(pins, key, now, out);
      var _ := cache.Add(key, out);
      return Answer(out);
    }

    /** The first half of the sweep. */
    method CollectExpired(now: Instant) returns (toDelete: set<string>)
      ensures toDelete == ExpiredKeys(pins, now)
      ensures forall k :: k in toDelete <==> k in pins && pins[k].expiry <= now
    {
      toDelete := {};
      var rest := pins.Keys;
      while rest != {}
        invariant rest <= pins.Keys
        invariant toDelete == set k | k in pins.Keys - rest && pins[k].expiry <= now
        decreases rest
      {
        var k :| k in rest;
        rest := rest - {k};
        if pins[k].expiry <= now {
          toDelete := toDelete + {k};
        }
      }
    }

    /** One round of the second half. */
    method DeleteExpired(k: string)
      requires Valid() && k in pins
      modifies this, cache
      ensures Valid() && Contents() == Minus(old(Contents()), k)
    {
      cache.Invalidate(KeyOf(TenantOf(k), pins[k]));
      pins := pins - {k};
    }

    /** Collects the expired keys, then invalidates and deletes them one by one. */
    method SweepMem(now: Instant) returns (deleted: nat)
      requires Valid()
      modifies this, cache
      ensures Valid()
      ensures Contents() == AfterSweep(old(Contents()), now)
      ensures deleted == |ExpiredKeys(old(pins), now)|
      ensures forall k :: k in pins <==> k in old(pins) && now < old(pins)[k].expiry
      ensures forall k :: k in pins ==> pins[k] == old(pins)[k]
      ensures deleted + |pins| == |old(pins)|
      ensures forall key :: key in cache.entries ==> key in old(cache.entries) && SweepLeaves(old(pins), key, now)
    {
      var toDelete := CollectExpired(now);
      deleted := |toDelete|;
      FewerBySome(pins, toDelete);
      forall key {
        SweptTablesGo(Contents(), key, now);
      }
      DeleteAll(toDelete);
    }

    /** The second half of the sweep. */
    method DeleteAll(keys: set<string>)
      requires Valid() && keys <= pins.Keys
      modifies this, cache
      ensures Valid() && Contents() == Without(old(Contents()), keys)
    {
      ghost var before := Contents();
      ghost var gone: set<string> := {};
      var toDelete := keys;
      NothingGone(before);
      hide Without, Minus;
      while toDelete != {}
        invariant Valid() && Contents() == Without(before, gone)
        invariant forall k :: k in toDelete ==> k in before.pins && k !in gone
        invariant gone + toDelete == keys
        decreases toDelete
      {
        var k :| k in toDelete;
        toDelete := toDelete - {k};
        WithoutOneMore(before, gone, k, gone + {k});
        DeleteExpired(k);
        gone := gone + {k};
      }
      assert gone == keys;
    }
  }

  lemma NothingGone(s: State)
    ensures Without(s, {}) == s
  {
    assert s.pins - {} == s.pins;
    assert TablesOf(s.pins, {}) == {};
    assert s.cache - {} == s.cache;
  }

  // ---- The law over every run ----

  datatype World = World(s: State, now: Instant)

  /** One operation of the store, an eviction, or time passing. */
  ghost predicate Step(size: nat, w: World, w': World) {
    || (exists t, p :: w' == World(AfterUpsert(w.s, t, p), w.now))
    || (exists key, l :: QueryStep(size, w, w', key, l))
    || w' == World(AfterSweep(w.s, w.now), w.now)
    || (exists key :: w' == w.(s := w.s.(cache := w.s.cache - {key})))
    || (w'.now >= w.now && w'.s == w.s)
  }

  /** A query that answers `l`. */
  ghost predicate QueryStep(size: nat, w: World, w': World, key: TableKey, l: Listing) {
    if key in w.s.cache then l == w.s.cache[key] && w' == w
    else
      && Lists(l, Active(w.s.pins, key, w.now))
      && w'.now == w.now && w'.s.pins == w.s.pins
      && LruAdded(w.s.cache, w'.s.cache, key, l, size)
  }

  /** Every cached list holds every pin of its table that is active now. */
  ghost predicate NoneMissing(w: World) {
    forall key, p :: key in w.s.cache && p in Active(w.s.pins, key, w.now) ==> p in w.s.cache[key]
  }

  lemma UpsertKeepsOthers(s: State, t: TenantId, p: Pin, key: TableKey, now: Instant, q: Pin)
    requires key != KeyOf(t, p) && q in Active(AfterUpsert(s, t, p).pins, key, now)
    ensures q in Active(s.pins, key, now)
  {
    var pins' := AfterUpsert(s, t, p).pins;
    var k :| k in pins' && Selected(k, pins'[k], key, now) && pins'[k] == q;
    PrefixNamesTenant(t, key.tenant, p.name);
    assert k != StoreKey(t, p.name);
    assert k in s.pins && s.pins[k] == q;
  }

  lemma LaterIsFewer(pins: map<string, Pin>, more: map<string, Pin>, key: TableKey, now: Instant, later: Instant)
    requires now <= later && forall k :: k in pins ==> k in more && more[k] == pins[k]
    ensures Active(pins, key, later) <= Active(more, key, now)
  {
    forall q | q in Active(pins, key, later)
      ensures q in Active(more, key, now)
    {
      var k :| k in pins && Selected(k, pins[k], key, later) && pins[k] == q;
      assert k in more && Selected(k, more[k], key, now);
    }
  }

  lemma StepKeepsNoneMissing(size: nat, w: World, w': World)
    requires NoneMissing(w) && Step(size, w, w')
    ensures NoneMissing(w')
  {
    if t, p :| w' == World(AfterUpsert(w.s, t, p), w.now) {
      forall key, q | key in w'.s.cache && q in Active(w'.s.pins, key, w'.now)
        ensures q in w'.s.cache[key]
      {
        UpsertKeepsOthers(w.s, t, p, key, w.now, q);
      }
    } else if key, l :| QueryStep(size, w, w', key, l) {
      assert key !in w.s.cache ==> forall p :: p in Active(w.s.pins, key, w.now) ==> p in l;
    } else {
      forall key | key in w'.s.cache
        ensures Active(w'.s.pins, key, w'.now) <= Active(w.s.pins, key, w.now)
      {
        LaterIsFewer(w'.s.pins, w.s.pins, key, w.now, w'.now);
      }
    }
  }

  ghost predicate RunStep(size: nat, run: seq<World>, n: nat)
    requires n < |run| - 1
  {
    Step(size, run[n], run[n + 1])
  }

  ghost predicate IsRun(size: nat, run: seq<World>) {
    |run| > 0 && forall n: nat :: n < |run| - 1 ==> RunStep(size, run, n)
  }

  lemma {:induction false} RunKeepsNoneMissing(size: nat, run: seq<World>, n: nat)
    requires IsRun(size, run) && run[0].s.cache == map[] && n < |run|
    ensures NoneMissing(run[n])
  {
    if n > 0 {
      RunKeepsNoneMissing(size, run, n - 1);
      assert RunStep(size, run, n - 1);
      StepKeepsNoneMissing(size, run[n - 1], run[n]);
    }
  }

  /** No query of any run, cached or not, misses a pin that is active at its time. */
  lemma QueriesMissNothing(size: nat, run: seq<World>, n: nat, w': World, key: TableKey, l: Listing)
    requires IsRun(size, run) && run[0].s.cache == map[] && n < |run|
    requires QueryStep(size, run[n], w', key, l)
    ensures forall p :: p in Active(run[n].s.pins, key, run[n].now) ==> p in l
  {
    RunKeepsNoneMissing(size, run, n);
  }
}
