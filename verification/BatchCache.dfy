/**
 The per-batch data key cache: an LRU with expiry behind double-checked locking.

 `BatchCache` is the object as one caller sees it.  `BatchCacheThreads` runs any number of
 callers over it, one LRU action, clock reading or lock action at a time.
 */
module BatchCache {
  import opened Common

  type Bytes = seq<bv8>

  datatype Key = Key(tenant: string, column: string, batch: string)

  datatype Entry = Entry(plaintext: Bytes, expiresAt: int) {
    predicate Expired(now: int) {
      now > expiresAt
    }
  }

  type Entries = map<Key, Entry>

  /** A look-up at `now` finds usable bytes. */
  predicate Usable(m: Entries, k: Key, now: int) {
    k in m && !m[k].Expired(now)
  }

  class BatchCache {
    const size: nat
    const ttl: int
    var entries: Entries

    ghost predicate Valid()
      reads this
    {
      0 < size && |entries| <= size && forall k :: k in entries ==> entries[k].plaintext != []
    }

    constructor (size: nat, ttl: int)
      requires size > 0
      ensures Valid() && entries == map[] && this.size == size && this.ttl == ttl
    {
      this.size := size;
      this.ttl := ttl;
      this.entries := map[];
    }

    /** The key's bytes, if an entry is there and has not expired; an expired entry is removed. */
    method Get(key: Key, now: int) returns (dek: Option<Bytes>)
      requires Valid()
      modifies this
      ensures Valid()
      ensures dek.Some? <==> Usable(old(entries), key, now)
      ensures dek.Some? <==> key in old(entries) && now <= old(entries)[key].expiresAt
      ensures dek.Some? ==> dek.value == old(entries)[key].plaintext && entries == old(entries)
      ensures dek.None? ==> entries == old(entries) - {key}
    {
      if key !in entries {
        assert entries - {key} == entries;
        return None;
      }
      var entry := entries[key];
      if entry.Expired(now) {
        entries := entries - {key};
        return None;
      }
      return Some(entry.plaintext);
    }

    /** Stores a copy that lives for `ttl`; empty bytes are ignored. */
    method Set(key: Key, plaintext: Bytes, now: int)
      requires Valid()
      modifies this
      ensures Valid()
      ensures plaintext == [] ==> entries == old(entries)
      ensures plaintext != [] ==> LruAdded(old(entries), entries, key, Entry(plaintext, now + ttl), size)
      ensures plaintext != [] ==>
        key in entries && entries[key].plaintext == plaintext
        && forall later :: Usable(entries, key, later) <==> later <= now + ttl
    {
      if plaintext == [] {
        return;
      }
      var e := Entry(plaintext, now + ttl);
      if key !in entries && |entries| >= size {
        var victim :| victim in entries;
        entries := (entries - {victim})[key := e];
      } else {
        entries := entries[key := e];
      }
    }

    /**
     Returns the cached bytes or generates them once.  The clock is read up to three
     times: by the fast look-up, by the re-check and when the new entry is stored.
     While the caller waits for the mutex others may change the cache; `meanwhile` is what
     it holds once the mutex is acquired.
     */
    method GetOrGenerate(key: Key, fast: int, meanwhile: Entries, slow: int, stored: int, generate: Reply<Bytes>)
      returns (r: Reply<Bytes>, calls: nat)
      requires Valid()
      requires |meanwhile| <= size && forall k :: k in meanwhile ==> meanwhile[k].plaintext != []
      modifies this
      ensures Valid()
      ensures Usable(old(entries), key, fast) ==>
        calls == 0 && r == Answer(old(entries)[key].plaintext) && entries == old(entries)
      ensures !Usable(old(entries), key, fast) && Usable(meanwhile, key, slow) ==>
        calls == 0 && r == Answer(meanwhile[key].plaintext) && entries == meanwhile
      ensures !Usable(old(entries), key, fast) && !Usable(meanwhile, key, slow) ==>
        && calls == 1 && r == generate
        && (r == Failed || r == Answer([]) ==> entries == meanwhile - {key})
        && (r.Answer? && r.value != [] ==>
          LruAdded(meanwhile - {key}, entries, key, Entry(r.value, stored + ttl), size))
    {
      var dek := Get(key, fast);
      if dek.Some? {
        return Answer(dek.value), 0;
      }
      entries := meanwhile;
      dek := Get(key, slow);
      if dek.Some? {
        return Answer(dek.value), 0;
      }
      if generate.Failed? {
        return Failed, 1;
      }
      Set(key, generate.value, stored);
      return generate, 1;
    }
  }

  /** The constructor function: a size that is not positive is refused. */
  method NewBatchCache(size: int, ttl: int) returns (c: BatchCache?)
    ensures c == null <==> size <= 0
    ensures c != null ==> fresh(c) && c.Valid() && c.size == size && c.ttl == ttl && c.entries == map[]
  {
    if size <= 0 {
      return null;
    }
    c := new BatchCache(size, ttl);
  }
}

module BatchCacheThreads {
  import opened Common
  import opened BatchCache

  /** Which caller performs a look-up: the unlocked first try, the locked re-check, or a bare Get. */
  datatype Mode = Fast | Slow | Plain

  datatype Pc =
    | Idle
    | Look(mode: Mode, key: Key)
    | Check(mode: Mode, key: Key, entry: Entry)
    | Remove(mode: Mode, key: Key, entry: Entry)
    | WaitLock(key: Key)
    | Generating(key: Key)
    | Storing(key: Key, bytes: Bytes)
    | Adding(key: Key, bytes: Bytes, expiresAt: int)
    | Returning(key: Key, bytes: Bytes)
    | PlainAdding(key: Key, bytes: Bytes, expiresAt: int)
  {
    predicate HoldsLock() {
      match this
      case Look(m, _) => m == Slow
      case Check(m, _, _) => m == Slow
      case Remove(m, _, _) => m == Slow
      case Generating(_) => true
      case Storing(_, _) => true
      case Adding(_, _, _) => true
      case Returning(_, _) => true
      case _ => false
    }

    /** Bytes generated for `k` that are on their way into the cache. */
    predicate Stores(k: Key) {
      (Storing? || Adding?) && key == k
    }
  }

  datatype Cause = Evicted | RemovedExpired | RemovedFresh

  datatype Event =
    | Generated(key: Key, bytes: Bytes)
    | Supplied(key: Key, bytes: Bytes)
    | Dropped(key: Key, cause: Cause)
    | Handed(key: Key, bytes: Bytes)

  datatype Config = Config(size: nat, ttl: nat)

  datatype Sys = Sys(entries: Entries, now: int, owner: Option<nat>, threads: seq<Pc>, log: seq<Event>)

  function Go(s: Sys, i: nat, pc: Pc): Sys
    requires i < |s.threads|
  {
    s.(threads := s.threads[i := pc])
  }

  /** Where a look-up that found nothing usable continues. */
  function Missed(m: Mode, k: Key): Pc {
    match m
    case Fast => WaitLock(k)
    case Slow => Generating(k)
    case Plain => Idle
  }

  /** Hand bytes to the caller; the deferred unlock runs with it. */
  function HandOut(s: Sys, i: nat, k: Key, b: Bytes): Sys
    requires i < |s.threads|
  {
    Go(s, i, Idle).(log := s.log + [Handed(k, b)], owner := if s.threads[i].HoldsLock() then None else s.owner)
  }

  /** The LRU removal by key, which takes whatever entry is there by now. */
  function DropKey(s: Sys, k: Key): Sys {
    if k in s.entries then
      s.(entries := s.entries - {k},
         log := s.log + [Dropped(k, if s.entries[k].Expired(s.now) then RemovedExpired else RemovedFresh)])
    else s
  }

  ghost predicate Adds(c: Config, s: Sys, s': Sys, i: nat, k: Key, e: Entry, pc: Pc)
    requires i < |s.threads|
  {
    if k in s.entries || |s.entries| < c.size then
      s' == Go(s, i, pc).(entries := s.entries[k := e])
    else
      exists victim :: victim in s.entries &&
        s' == Go(s, i, pc).(entries := (s.entries - {victim})[k := e], log := s.log + [Dropped(victim, Evicted)])
  }

  ghost predicate StepOf(c: Config, s: Sys, s': Sys, i: nat)
    requires i < |s.threads|
  {
    match s.threads[i]
    case Idle =>
      || (exists k :: s' == Go(s, i, Look(Fast, k)) || s' == Go(s, i, Look(Plain, k)))
      || (exists k, b ::
          b != [] && s' == Go(s, i, PlainAdding(k, b, s.now + c.ttl)).(log := s.log + [Supplied(k, b)]))
    case Look(m, k) =>
      s' == Go(s, i, if k in s.entries then Check(m, k, s.entries[k]) else Missed(m, k))
    case Check(m, k, e) =>
      s' == if e.Expired(s.now) then Go(s, i, Remove(m, k, e)) else HandOut(s, i, k, e.plaintext)
    case Remove(m, k, _) =>
      s' == Go(DropKey(s, k), i, Missed(m, k))
    case WaitLock(k) =>
      s.owner == None && s' == Go(s, i, Look(Slow, k)).(owner := Some(i))
    case Generating(k) =>
      || s' == Go(s, i, Idle).(owner := None)
      || exists b ::
        s' == Go(s, i, if b == [] then Returning(k, b) else Storing(k, b)).(log := s.log + [Generated(k, b)])
    case Storing(k, b) =>
      s' == Go(s, i, Adding(k, b, s.now + c.ttl))
    case Adding(k, b, t) =>
      Adds(c, s, s', i, k, Entry(b, t), Returning(k, b))
    case Returning(k, b) =>
      s' == HandOut(s, i, k, b)
    case PlainAdding(k, b, t) =>
      Adds(c, s, s', i, k, Entry(b, t), Idle)
  }

  /** A thread moves, or time passes. */
  ghost predicate Step(c: Config, s: Sys, s': Sys) {
    || (exists i: nat :: i < |s.threads| && StepOf(c, s, s', i))
    || (s'.now >= s.now && s' == s.(now := s'.now))
  }

  ghost predicate Start(s: Sys) {
    s.entries == map[] && s.owner == None && s.log == [] && forall i :: 0 <= i < |s.threads| ==> s.threads[i] == Idle
  }

  ghost predicate RunStep(c: Config, run: seq<Sys>, n: nat)
    requires n < |run| - 1
  {
    Step(c, run[n], run[n + 1])
  }

  ghost predicate IsRun(c: Config, run: seq<Sys>) {
    |run| > 0 && forall n: nat :: n < |run| - 1 ==> RunStep(c, run, n)
  }

  // ---- What a log says ----

  /** Someone generated or supplied `b` for exactly this tenant, column and batch. */
  ghost predicate Known(log: seq<Event>, k: Key, b: Bytes) {
    Generated(k, b) in log || Supplied(k, b) in log
  }

  /** The last non-empty generate for `k` has not been followed by a drop of its entry. */
  ghost predicate LiveGenerate(log: seq<Event>, k: Key) {
    log != [] &&
    var last := log[|log| - 1];
    if last.Dropped? && last.key == k then false
    else if MadeKey(last) && last.key == k then true
    else LiveGenerate(log[..|log| - 1], k)
  }

  /** Every key handed out was made for this tenant, column and batch before. */
  ghost predicate HandsOutKnown(log: seq<Event>) {
    forall n :: 0 <= n < |log| && log[n].Handed? ==> Known(log[..n], log[n].key, log[n].bytes)
  }

  /** A generate call that returned a key. */
  predicate MadeKey(x: Event) {
    x.Generated? && x.bytes != []
  }

  ghost predicate DropBetween(log: seq<Event>, k: Key, m: nat, n: nat)
  {
    exists d :: m < d < n && d < |log| && log[d].Dropped? && log[d].key == k
  }

  /** Two non-empty generates for one key have a drop of its entry between them. */
  ghost predicate GeneratesSeparated(log: seq<Event>) {
    forall m, n :: 0 <= m < n < |log| && MadeKey(log[m]) && MadeKey(log[n]) && log[m].key == log[n].key
      ==> DropBetween(log, log[m].key, m, n)
  }

  lemma {:induction false} NotLiveMeansDropped(log: seq<Event>, k: Key, m: nat)
    requires m < |log| && MadeKey(log[m]) && log[m].key == k
    requires !LiveGenerate(log, k)
    ensures DropBetween(log, k, m, |log|)
    decreases |log|
  {
    var n := |log| - 1;
    if !(log[n].Dropped? && log[n].key == k) {
      NotLiveMeansDropped(log[..n], k, m);
    }
  }

  lemma LogGrows(log: seq<Event>, x: Event, k: Key)
    ensures LiveGenerate(log + [x], k) ==
      if x.Dropped? && x.key == k then false
      else if MadeKey(x) && x.key == k then true
      else LiveGenerate(log, k)
  {
    assert (log + [x])[..|log + [x]| - 1] == log;
  }

  lemma SeparationGrows(log: seq<Event>, x: Event)
    requires GeneratesSeparated(log)
    requires MadeKey(x) ==> !LiveGenerate(log, x.key)
    ensures GeneratesSeparated(log + [x])
  {
    var l := log + [x];
    forall m, n | 0 <= m < n < |l| && MadeKey(l[m]) && MadeKey(l[n]) && l[m].key == l[n].key
      ensures DropBetween(l, l[m].key, m, n)
    {
      if n == |log| {
        NotLiveMeansDropped(log, x.key, m);
      }
      assert DropBetween(log, l[m].key, m, n);
      var d :| m < d < n && d < |log| && log[d].Dropped? && log[d].key == l[m].key;
      assert l[d] == log[d];
    }
  }

  lemma HandsGrow(log: seq<Event>, x: Event)
    requires HandsOutKnown(log)
    requires x.Handed? ==> Known(log, x.key, x.bytes)
    ensures HandsOutKnown(log + [x])
  {
    var l := log + [x];
    forall n | 0 <= n < |l| && l[n].Handed?
      ensures Known(l[..n], l[n].key, l[n].bytes)
    {
      assert l[..n] == log[..n];
      assert log[..|log|] == log;
    }
  }

  // ---- The invariant ----

  /** The mutex is held by exactly the thread inside the locked section. */
  ghost predicate LockHeld(s: Sys) {
    forall i :: 0 <= i < |s.threads| ==> (s.threads[i].HoldsLock() <==> s.owner == Some(i))
  }

  ghost predicate KnownPc(s: Sys, pc: Pc) {
    match pc
    case Check(_, k, e) => Known(s.log, k, e.plaintext)
    case Storing(k, b) => Known(s.log, k, b)
    case Adding(k, b, _) => Known(s.log, k, b)
    case Returning(k, b) => Known(s.log, k, b)
    case PlainAdding(k, b, _) => Known(s.log, k, b)
    case _ => true
  }

  ghost predicate Provenance(s: Sys) {
    && (forall k :: k in s.entries ==> Known(s.log, k, s.entries[k].plaintext))
    && (forall i :: 0 <= i < |s.threads| ==> KnownPc(s, s.threads[i]))
    && HandsOutKnown(s.log)
  }

  ghost predicate OwnerStores(s: Sys, k: Key) {
    s.owner.Some? && s.owner.value < |s.threads| && s.threads[s.owner.value].Stores(k)
  }

  /** A generated key that was not dropped is in the cache or about to be. */
  ghost predicate Accounted(s: Sys) {
    && (forall k :: LiveGenerate(s.log, k) ==> k in s.entries || OwnerStores(s, k))
    && (forall i :: 0 <= i < |s.threads| && s.threads[i].Generating? ==> !LiveGenerate(s.log, s.threads[i].key))
    && GeneratesSeparated(s.log)
  }

  /** A thread about to remove a key saw an entry that had expired. */
  ghost predicate RemoversSawExpiry(s: Sys) {
    forall i :: 0 <= i < |s.threads| && s.threads[i].Remove? ==> s.threads[i].entry.Expired(s.now)
  }

  ghost predicate Inv(c: Config, s: Sys) {
    && |s.entries| <= c.size
    && LockHeld(s) && Provenance(s) && Accounted(s) && RemoversSawExpiry(s)
  }

  lemma KnownGrows(s: Sys, s': Sys)
    requires s.log <= s'.log
    ensures forall k, b :: Known(s.log, k, b) ==> Known(s'.log, k, b)
    ensures forall pc :: KnownPc(s, pc) ==> KnownPc(s', pc)
  {
  }

  lemma StepKeepsSize(c: Config, s: Sys, s': Sys, i: nat)
    requires i < |s.threads| && |s.entries| <= c.size && StepOf(c, s, s', i)
    ensures |s'.entries| <= c.size
  {
    match s.threads[i]
    case Adding(k, b, t) => LruAddKeepsSize(s.entries, s'.entries, k, Entry(b, t), c.size);
    case PlainAdding(k, b, t) => LruAddKeepsSize(s.entries, s'.entries, k, Entry(b, t), c.size);
    case Remove(_, k, _) => assert (s.entries - {k}).Keys <= s.entries.Keys;
    case _ =>
  }

  /** What a step of thread `i` may do to the lock and to the log. */
  lemma StepShape(c: Config, s: Sys, s': Sys, i: nat)
    requires i < |s.threads| && StepOf(c, s, s', i)
    ensures |s'.threads| == |s.threads| && s'.threads == s.threads[i := s'.threads[i]] && s'.now == s.now
    ensures s'.log == s.log || (|s'.log| == |s.log| + 1 && s'.log[..|s.log|] == s.log)
    ensures s'.owner ==
      if !s.threads[i].HoldsLock() && s'.threads[i].HoldsLock() then Some(i)
      else if s.threads[i].HoldsLock() && !s'.threads[i].HoldsLock() then None
      else s.owner
    ensures !s.threads[i].HoldsLock() && s'.threads[i].HoldsLock() ==> s.owner == None
    ensures s'.threads[i].Remove? ==> s'.threads[i].entry.Expired(s.now)
  {
    match s.threads[i]
    case Idle =>
    case Look(m, k) =>
    case Check(m, k, e) =>
    case Remove(m, k, _) =>
    case Generating(k) =>
    case _ =>
  }

  lemma StepKeepsLock(c: Config, s: Sys, s': Sys, i: nat)
    requires i < |s.threads| && LockHeld(s) && RemoversSawExpiry(s) && StepOf(c, s, s', i)
    ensures LockHeld(s') && RemoversSawExpiry(s')
  {
    StepShape(c, s, s', i);
  }

  lemma StepKeepsProvenance(c: Config, s: Sys, s': Sys, i: nat)
    requires i < |s.threads| && Provenance(s) && StepOf(c, s, s', i)
    ensures Provenance(s')
  {
    StepShape(c, s, s', i);
    KnownGrows(s, s');
    assert KnownPc(s, s.threads[i]);
    StepKeepsKnown(c, s, s', i);
    if s'.log != s.log {
      var x := s'.log[|s.log|];
      assert s'.log == s.log + [x];
      HandsGrow(s.log, x);
    }
  }

  lemma StepKeepsKnown(c: Config, s: Sys, s': Sys, i: nat)
    requires i < |s.threads| && StepOf(c, s, s', i) && s.log <= s'.log
    requires forall k :: k in s.entries ==> Known(s.log, k, s.entries[k].plaintext)
    requires KnownPc(s, s.threads[i])
    ensures forall k :: k in s'.entries ==> Known(s'.log, k, s'.entries[k].plaintext)
    ensures KnownPc(s', s'.threads[i])
    ensures |s'.log| > |s.log| && s'.log[|s.log|].Handed? ==> Known(s.log, s'.log[|s.log|].key, s'.log[|s.log|].bytes)
  {
    KnownGrows(s, s');
    match s.threads[i]
    case Idle =>
    case Look(m, k) =>
    case Check(m, k, e) =>
    case Remove(m, k, _) =>
    case Generating(k) =>
      if b :| s' == Go(s, i, if b == [] then Returning(k, b) else Storing(k, b)).(log := s.log + [Generated(k, b)]) {
        assert s'.log[|s.log|] == Generated(k, b);
      }
    case _ =>
  }

  /** How a step that logs `x` moves the account of every key. */
  ghost predicate AccountMoves(s: Sys, s': Sys) {
    forall k :: LiveGenerate(s'.log, k) ==
      if s'.log == s.log || s'.log == [] then LiveGenerate(s.log, k)
      else
        var x := s'.log[|s'.log| - 1];
        if x.Dropped? && x.key == k then false
        else if MadeKey(x) && x.key == k then true
        else LiveGenerate(s.log, k)
  }

  lemma StepMovesAccount(c: Config, s: Sys, s': Sys, i: nat)
    requires i < |s.threads| && StepOf(c, s, s', i)
    ensures s'.log == s.log || (|s'.log| == |s.log| + 1 && s'.log == s.log + [s'.log[|s'.log| - 1]])
    ensures (s'.log != s.log ==> s'.log != []) && AccountMoves(s, s')
  {
    StepShape(c, s, s', i);
    if s'.log != s.log {
      var x := s'.log[|s.log|];
      assert s'.log == s.log + [x];
      forall k {
        LogGrows(s.log, x, k);
      }
    }
  }

  lemma StepKeepsSeparated(c: Config, s: Sys, s': Sys, i: nat)
    requires i < |s.threads| && Accounted(s) && StepOf(c, s, s', i)
    ensures GeneratesSeparated(s'.log)
  {
    StepMovesAccount(c, s, s', i);
    if s'.log != s.log {
      SeparationGrows(s.log, s'.log[|s.log|]);
    }
  }

  /** An entry leaves the cache only with a drop in the log. */
  ghost predicate DropsAreLogged(s: Sys, s': Sys) {
    forall k :: k in s.entries && k !in s'.entries ==>
      s'.log != s.log && s'.log != [] && s'.log[|s'.log| - 1].Dropped? && s'.log[|s'.log| - 1].key == k
  }

  /** What a step of thread `i` means for keys under way. */
  ghost predicate KeysUnderWay(s: Sys, s': Sys, i: nat) {
    && i < |s.threads| && |s'.threads| == |s.threads|
    && (forall j :: 0 <= j < |s.threads| && j != i ==> s'.threads[j] == s.threads[j])
    && (forall k :: s.threads[i].Stores(k) ==> s'.threads[i].Stores(k) || k in s'.entries)
    && (s'.threads[i].Generating? ==>
      s.threads[i].HoldsLock() && !s.threads[i].Storing? && !s.threads[i].Adding?
      && s'.threads[i].key !in s'.entries)
    && (s'.log != s.log && s'.log != [] && MadeKey(s'.log[|s'.log| - 1]) ==>
      s.threads[i].Generating? && s'.threads[i].Stores(s'.log[|s'.log| - 1].key))
  }

  lemma StepLogsDrops(c: Config, s: Sys, s': Sys, i: nat)
    requires i < |s.threads| && StepOf(c, s, s', i)
    ensures DropsAreLogged(s, s')
  {
    match s.threads[i]
    case Remove(m, k, _) =>
    case _ =>
  }

  lemma StepMovesKeys(c: Config, s: Sys, s': Sys, i: nat)
    requires i < |s.threads| && StepOf(c, s, s', i)
    ensures KeysUnderWay(s, s', i)
  {
    StepShape(c, s, s', i);
    match s.threads[i]
    case Idle =>
    case Look(m, k) =>
    case Check(m, k, e) =>
    case Remove(m, k, _) =>
    case Generating(k) =>
    case _ =>
  }

  lemma EffectsKeepAccounted(s: Sys, s': Sys, i: nat)
    requires LockHeld(s) && LockHeld(s') && Accounted(s)
    requires DropsAreLogged(s, s') && KeysUnderWay(s, s', i) && AccountMoves(s, s') && GeneratesSeparated(s'.log)
    ensures Accounted(s')
  {
    forall k | LiveGenerate(s'.log, k)
      ensures k in s'.entries || OwnerStores(s', k)
    {
      if LiveGenerate(s.log, k) && OwnerStores(s, k) {
        assert s.threads[s.owner.value].HoldsLock();
      }
      assert s'.threads[i].Stores(k) ==> s'.owner == Some(i);
    }
    forall j | 0 <= j < |s'.threads| && s'.threads[j].Generating?
      ensures !LiveGenerate(s'.log, s'.threads[j].key)
    {
      assert s'.owner == Some(j);
    }
  }

  lemma StepKeepsAccounted(c: Config, s: Sys, s': Sys, i: nat)
    requires i < |s.threads| && LockHeld(s) && LockHeld(s') && Accounted(s) && StepOf(c, s, s', i)
    ensures Accounted(s')
  {
    StepMovesAccount(c, s, s', i);
    StepKeepsSeparated(c, s, s', i);
    StepLogsDrops(c, s, s', i);
    StepMovesKeys(c, s, s', i);
    EffectsKeepAccounted(s, s', i);
  }

  lemma StepKeepsInv(c: Config, s: Sys, s': Sys)
    requires Inv(c, s) && Step(c, s, s')
    ensures Inv(c, s')
  {
    if i: nat :| i < |s.threads| && StepOf(c, s, s', i) {
      StepKeepsSize(c, s, s', i);
      StepKeepsLock(c, s, s', i);
      StepKeepsProvenance(c, s, s', i);
      StepKeepsAccounted(c, s, s', i);
    }
  }

  lemma StartIsInv(c: Config, s: Sys)
    requires Start(s)
    ensures Inv(c, s)
  {
    assert forall i :: 0 <= i < |s.threads| ==> s.threads[i] == Idle;
  }

  lemma {:induction false} RunKeepsInv(c: Config, run: seq<Sys>, n: nat)
    requires c.size > 0 && IsRun(c, run) && Start(run[0]) && n < |run|
    ensures Inv(c, run[n])
  {
    hide Inv, Step;
    if n == 0 {
      StartIsInv(c, run[0]);
    } else {
      RunKeepsInv(c, run, n - 1);
      assert RunStep(c, run, n - 1);
      StepKeepsInv(c, run[n - 1], run[n]);
    }
  }

  // ---- What holds in every run ----

  /** Never two threads inside the generate function. */
  lemma AtMostOneGenerating(c: Config, run: seq<Sys>, n: nat, i: nat, j: nat)
    requires c.size > 0 && IsRun(c, run) && Start(run[0]) && n < |run|
    requires i < |run[n].threads| && j < |run[n].threads|
    requires run[n].threads[i].Generating? && run[n].threads[j].Generating?
    ensures i == j
  {
    RunKeepsInv(c, run, n);
  }

  /** Two non-empty generates for one key are separated by a drop of its entry. */
  lemma GeneratesAreSeparated(c: Config, run: seq<Sys>, n: nat)
    requires c.size > 0 && IsRun(c, run) && Start(run[0]) && n < |run|
    ensures GeneratesSeparated(run[n].log)
  {
    RunKeepsInv(c, run, n);
  }

  /** Whatever is handed out was made for the same tenant, column and batch. */
  lemma HandedKeysAreOwn(c: Config, run: seq<Sys>, n: nat)
    requires c.size > 0 && IsRun(c, run) && Start(run[0]) && n < |run|
    ensures HandsOutKnown(run[n].log) && |run[n].entries| <= c.size
  {
    RunKeepsInv(c, run, n);
  }

  // ---- How long a key is served ----

  /** Nothing in the cache, or on its way in or out of it, lives longer than the time to live from now. */
  ghost predicate Timely(c: Config, s: Sys) {
    && (forall k :: k in s.entries ==> s.entries[k].expiresAt <= s.now + c.ttl)
    && (forall i :: 0 <= i < |s.threads| ==> TimelyPc(c, s.threads[i], s.now))
  }

  predicate TimelyPc(c: Config, pc: Pc, now: int) {
    && (pc.Check? || pc.Remove? ==> pc.entry.expiresAt <= now + c.ttl)
    && (pc.Adding? || pc.PlainAdding? ==> pc.expiresAt <= now + c.ttl)
  }

  lemma StepKeepsTimely(c: Config, s: Sys, s': Sys, i: nat)
    requires i < |s.threads| && Timely(c, s) && StepOf(c, s, s', i)
    ensures Timely(c, s')
  {
    assert TimelyPc(c, s.threads[i], s.now);
    match s.threads[i]
    case Adding(k, b, t) => AddKeepsTimely(c, s, s', i, k, Entry(b, t), Returning(k, b));
    case PlainAdding(k, b, t) => AddKeepsTimely(c, s, s', i, k, Entry(b, t), Idle);
    case _ =>
  }

  lemma AddKeepsTimely(c: Config, s: Sys, s': Sys, i: nat, k: Key, e: Entry, pc: Pc)
    requires i < |s.threads| && Timely(c, s) && Adds(c, s, s', i, k, e, pc)
    requires e.expiresAt <= s.now + c.ttl && TimelyPc(c, pc, s.now)
    ensures Timely(c, s')
  {
  }

  lemma {:induction false} RunKeepsTimely(c: Config, run: seq<Sys>, n: nat)
    requires IsRun(c, run) && Start(run[0]) && n < |run|
    ensures Timely(c, run[n])
  {
    hide StepOf;
    if n > 0 {
      RunKeepsTimely(c, run, n - 1);
      var s, s' := run[n - 1], run[n];
      assert RunStep(c, run, n - 1);
      if i: nat :| i < |s.threads| && StepOf(c, s, s', i) {
        StepKeepsTimely(c, s, s', i);
      }
    }
  }

  /**
   A look-up hands out the entry it found exactly while that has not expired, and no entry expires later
   than the time to live from now.
   */
  lemma HitsAreUnexpired(c: Config, run: seq<Sys>, n: nat, i: nat)
    requires IsRun(c, run) && Start(run[0]) && n < |run| - 1
    requires i < |run[n].threads| && run[n].threads[i].Check? && StepOf(c, run[n], run[n + 1], i)
    ensures
      var key, entry := run[n].threads[i].key, run[n].threads[i].entry;
      && run[n + 1].log ==
         run[n].log + (if run[n].now <= entry.expiresAt then [Handed(key, entry.plaintext)] else [])
      && entry.expiresAt <= run[n].now + c.ttl
  {
    RunKeepsTimely(c, run, n);
    assert TimelyPc(c, run[n].threads[i], run[n].now);
    assert run[n].log + [] == run[n].log;
  }

  // ---- A removal that arrives late ----

  /** A removal hits an entry that is still good only if that entry replaced the one it saw. */
  lemma FreshDropIffReplaced(c: Config, run: seq<Sys>, n: nat, i: nat)
    requires c.size > 0 && IsRun(c, run) && Start(run[0]) && n < |run| && i < |run[n].threads|
    requires run[n].threads[i].Remove? && run[n].threads[i].key in run[n].entries
    ensures var t := run[n].threads[i];
      Dropped(t.key, RemovedFresh) == DropKey(run[n], t.key).log[|run[n].log|] <==>
        (run[n].entries[t.key] != t.entry && !run[n].entries[t.key].Expired(run[n].now))
  {
    RunKeepsInv(c, run, n);
  }

  /** An entry for `k` leaves for this cause between two points of the log. */
  ghost predicate DropsBetween(log: seq<Event>, k: Key, cause: Cause, m: nat, n: nat) {
    exists d :: m < d < n && d < |log| && log[d] == Dropped(k, cause)
  }

  /** Two generates for one key that no late removal comes between are an expiry or an eviction apart. */
  lemma GeneratesBarLateRemoval(c: Config, run: seq<Sys>, n: nat, i: nat, j: nat)
    requires c.size > 0 && IsRun(c, run) && Start(run[0]) && n < |run|
    requires i < j < |run[n].log| && MadeKey(run[n].log[i]) && MadeKey(run[n].log[j])
    requires run[n].log[i].key == run[n].log[j].key
    requires !DropsBetween(run[n].log, run[n].log[i].key, RemovedFresh, i, j)
    ensures DropsBetween(run[n].log, run[n].log[i].key, RemovedExpired, i, j)
      || DropsBetween(run[n].log, run[n].log[i].key, Evicted, i, j)
  {
    hide IsRun, Start;
    GeneratesAreSeparated(c, run, n);
    var log, k := run[n].log, run[n].log[i].key;
    assert DropBetween(log, k, i, j);
    var d :| i < d < j && d < |log| && log[d].Dropped? && log[d].key == k;
    assert DropsBetween(log, k, log[d].cause, i, j);
    match log[d].cause
    case Evicted =>
    case RemovedExpired =>
    case RemovedFresh =>
  }

  /** Keys generated for `k`. */
  function Made(log: seq<Event>, k: Key): nat {
    if log == [] then 0
    else
      var x := log[|log| - 1];
      Made(log[..|log| - 1], k) + if MadeKey(x) && x.key == k then 1 else 0
  }

  /** Entries of `k` that left the cache for this cause. */
  function Drops(log: seq<Event>, k: Key, cause: Cause): nat {
    if log == [] then 0
    else Drops(log[..|log| - 1], k, cause) + if log[|log| - 1] == Dropped(k, cause) then 1 else 0
  }

  lemma {:induction false} LiveMeansUndropped(log: seq<Event>, k: Key) returns (m: nat)
    requires LiveGenerate(log, k)
    ensures m < |log| && MadeKey(log[m]) && log[m].key == k
    ensures forall d :: m < d < |log| ==> !(log[d].Dropped? && log[d].key == k)
    decreases |log|
  {
    var last := |log| - 1;
    if MadeKey(log[last]) && log[last].key == k {
      m := last;
    } else {
      m := LiveMeansUndropped(log[..last], k);
    }
  }

  lemma SeparatedBefore(log: seq<Event>)
    requires log != [] && GeneratesSeparated(log)
    ensures GeneratesSeparated(log[..|log| - 1])
  {
    var l := log[..|log| - 1];
    forall m, n | 0 <= m < n < |l| && MadeKey(l[m]) && MadeKey(l[n]) && l[m].key == l[n].key
      ensures DropBetween(l, l[m].key, m, n)
    {
      assert DropBetween(log, log[m].key, m, n);
      var d :| m < d < n && d < |log| && log[d].Dropped? && log[d].key == log[m].key;
      assert l[d] == log[d];
    }
  }

  /** Behind a generate whose key is still live no other comes. */
  lemma UndroppedIsAlone(log: seq<Event>, k: Key)
    requires log != [] && LiveGenerate(log[..|log| - 1], k)
    requires MadeKey(log[|log| - 1]) && log[|log| - 1].key == k
    ensures !GeneratesSeparated(log)
  {
    var before := log[..|log| - 1];
    var m := LiveMeansUndropped(before, k);
    assert log[m] == before[m];
    forall d | m < d < |log| - 1
      ensures !(log[d].Dropped? && log[d].key == k)
    {
      assert log[d] == before[d];
    }
    assert !DropBetween(log, k, m, |log| - 1);
  }

  lemma {:induction false} SeparatedCount(log: seq<Event>, k: Key)
    requires GeneratesSeparated(log)
    ensures Made(log, k) <=
      Drops(log, k, Evicted) + Drops(log, k, RemovedExpired) + Drops(log, k, RemovedFresh)
      + if LiveGenerate(log, k) then 1 else 0
    decreases |log|
  {
    if log != [] {
      var before, x := log[..|log| - 1], log[|log| - 1];
      SeparatedBefore(log);
      SeparatedCount(before, k);
      if MadeKey(x) && x.key == k && LiveGenerate(before, k) {
        UndroppedIsAlone(log, k);
      }
      if x.Dropped? && x.key == k {
        assert x.cause == Evicted || x.cause == RemovedExpired || x.cause == RemovedFresh;
        assert x == Dropped(k, x.cause);
      }
    }
  }

  /** Generates for a key are at most one more than its expiries, evictions and late removals. */
  lemma GeneratesAreCounted(c: Config, run: seq<Sys>, n: nat, k: Key)
    requires c.size > 0 && IsRun(c, run) && Start(run[0]) && n < |run|
    ensures Made(run[n].log, k) <= 1 + Drops(run[n].log, k, Evicted)
      + Drops(run[n].log, k, RemovedExpired) + Drops(run[n].log, k, RemovedFresh)
  {
    hide IsRun, Start;
    GeneratesAreSeparated(c, run, n);
    SeparatedCount(run[n].log, k);
  }

  lemma Extend(c: Config, run: seq<Sys>, s: Sys)
    requires IsRun(c, run) && Step(c, run[|run| - 1], s)
    ensures IsRun(c, run + [s])
  {
    var r := run + [s];
    forall n: nat | n < |r| - 1
      ensures RunStep(c, r, n)
    {
      assert n < |run| - 1 ==> RunStep(c, run, n);
    }
  }

  /** Thread `i` runs the steps of `path` in turn. */
  lemma {:induction false} ExtendBy(c: Config, run: seq<Sys>, path: seq<Sys>, i: nat)
    requires IsRun(c, run) && i < |run[|run| - 1].threads|
    requires forall n :: 0 <= n < |path| ==> i < |path[n].threads|
    requires path != [] ==> StepOf(c, run[|run| - 1], path[0], i)
    requires forall n :: 0 <= n < |path| - 1 ==> PathStep(c, path, n, i)
    ensures IsRun(c, run + path)
    decreases |path|
  {
    if path == [] {
      assert run + path == run;
    } else {
      Extend(c, run, path[0]);
      assert run + path == (run + [path[0]]) + path[1..];
      assert |path| > 1 ==> PathStep(c, path, 0, i);
      forall n | 0 <= n < |path[1..]| - 1
        ensures PathStep(c, path[1..], n, i)
      {
        assert PathStep(c, path, n + 1, i);
      }
      ExtendBy(c, run + [path[0]], path[1..], i);
    }
  }

  ghost predicate PathStep(c: Config, path: seq<Sys>, n: int, i: nat)
    requires 0 <= n < |path| - 1 && i < |path[n].threads|
  {
    StepOf(c, path[n], path[n + 1], i)
  }

  /** From the expired entry to the pending removal. */
  function SeeExpired(s: Sys, i: nat, k: Key, e: Entry): seq<Sys>
    requires i < |s.threads|
  {
    [Go(s, i, Look(Fast, k)), Go(s, i, Check(Fast, k, e)), Go(s, i, Remove(Fast, k, e))]
  }

  /** From the pending removal to the generate call, alone. */
  function DropAndGenerate(s: Sys, i: nat, k: Key, b: Bytes): seq<Sys>
    requires i < |s.threads|
  {
    var d := DropKey(s, k);
    var o := d.(owner := Some(i));
    [ Go(d, i, WaitLock(k)), Go(o, i, Look(Slow, k)), Go(o, i, Generating(k)),
      Go(o, i, Storing(k, b)).(log := d.log + [Generated(k, b)]) ]
  }

  function StoreAndReturn(c: Config, s: Sys, i: nat, k: Key, b: Bytes): seq<Sys>
    requires i < |s.threads|
  {
    var stored := s.(entries := s.entries[k := Entry(b, s.now + c.ttl)]);
    [ Go(s, i, Adding(k, b, s.now + c.ttl)), Go(stored, i, Returning(k, b)),
      Go(stored, i, Idle).(owner := None, log := s.log + [Handed(k, b)]) ]
  }

  lemma SeeExpiredIsPath(c: Config, s: Sys, i: nat, k: Key, e: Entry)
    requires i < |s.threads| && s.threads[i] == Idle && k in s.entries && s.entries[k] == e && e.Expired(s.now)
    ensures var p := SeeExpired(s, i, k, e);
      StepOf(c, s, p[0], i) && forall n :: 0 <= n < 2 ==> PathStep(c, p, n, i)
  {
  }

  lemma DropAndGenerateIsPath(c: Config, s: Sys, i: nat, k: Key, e: Entry, b: Bytes)
    requires i < |s.threads| && s.threads[i] == Remove(Fast, k, e) && s.owner == None && b != []
    ensures var p := DropAndGenerate(s, i, k, b);
      StepOf(c, s, p[0], i) && forall n :: 0 <= n < 3 ==> PathStep(c, p, n, i)
  {
    var p := DropAndGenerate(s, i, k, b);
    assert PathStep(c, p, 0, i) && PathStep(c, p, 1, i) && PathStep(c, p, 2, i);
  }

  lemma StoreAndReturnIsPath(c: Config, s: Sys, i: nat, k: Key, b: Bytes)
    requires i < |s.threads| && s.threads[i] == Storing(k, b) && |s.entries| < c.size
    ensures var p := StoreAndReturn(c, s, i, k, b);
      StepOf(c, s, p[0], i) && forall n :: 0 <= n < 2 ==> PathStep(c, p, n, i)
  {
  }

  /** The faster of two threads drops the expired entry, generates a key and returns it. */
  lemma FasterThread(c: Config, s: Sys, i: nat, k: Key, e: Entry, x: Bytes) returns (run: seq<Sys>)
    requires i < |s.threads| && s.threads[i] == Idle && s.owner == None && |s.entries| <= c.size && x != []
    requires k in s.entries && s.entries[k] == e && e.Expired(s.now)
    ensures IsRun(c, run) && run[0] == s
    ensures run[|run| - 1] == s.(
      entries := (s.entries - {k})[k := Entry(x, s.now + c.ttl)],
      log := s.log + [Dropped(k, RemovedExpired), Generated(k, x), Handed(k, x)])
  {
    SeeExpiredIsPath(c, s, i, k, e);
    ExtendBy(c, [s], SeeExpired(s, i, k, e), i);
    run := [s] + SeeExpired(s, i, k, e);
    var s2 := run[|run| - 1];

    DropAndGenerateIsPath(c, s2, i, k, e, x);
    ExtendBy(c, run, DropAndGenerate(s2, i, k, x), i);
    run := run + DropAndGenerate(s2, i, k, x);
    var s3 := run[|run| - 1];
    assert s3.entries.Keys == s.entries.Keys - {k};

    StoreAndReturnIsPath(c, s3, i, k, x);
    ExtendBy(c, run, StoreAndReturn(c, s3, i, k, x), i);
    run := run + StoreAndReturn(c, s3, i, k, x);
    assert run[|run| - 1].threads == s.threads;
  }

  lemma {:induction false} JoinRuns(c: Config, a: seq<Sys>, b: seq<Sys>)
    requires IsRun(c, a) && IsRun(c, b) && a[|a| - 1] == b[0]
    ensures IsRun(c, a + b[1..])
  {
    var r := a + b[1..];
    forall n: nat | n < |r| - 1
      ensures RunStep(c, r, n)
    {
      if n < |a| - 1 {
        assert RunStep(c, a, n);
      } else {
        assert RunStep(c, b, n - (|a| - 1));
        assert r[n] == b[n - (|a| - 1)] && r[n + 1] == b[n + 1 - (|a| - 1)];
      }
    }
  }

  /**
   One generate per entry lifetime is not guaranteed: whenever an expired entry is looked
   up by two idle threads, the slower removal can take the entry that the other has just
   generated.  Two generates for the key follow at one instant, with neither an expiry
   nor an eviction between them.
   */
  lemma LateRemovalCausesSecondGenerate(c: Config, s: Sys, a: nat, b: nat, k: Key, x: Bytes, y: Bytes)
    returns (run: seq<Sys>)
    requires a != b && a < |s.threads| && b < |s.threads| && s.threads[a] == Idle && s.threads[b] == Idle
    requires s.owner == None && |s.entries| <= c.size && x != [] && y != []
    requires k in s.entries && s.entries[k].Expired(s.now)
    ensures IsRun(c, run) && run[0] == s && run[|run| - 1].now == s.now
    ensures run[|run| - 1].log == s.log +
      [Dropped(k, RemovedExpired), Generated(k, x), Handed(k, x), Dropped(k, RemovedFresh), Generated(k, y)]
  {
    var e := s.entries[k];
    SeeExpiredIsPath(c, s, a, k, e);
    ExtendBy(c, [s], SeeExpired(s, a, k, e), a);
    run := [s] + SeeExpired(s, a, k, e);
    var s1 := run[|run| - 1];

    var fast := FasterThread(c, s1, b, k, e, x);
    JoinRuns(c, run, fast);
    run := run + fast[1..];
    var s4 := fast[|fast| - 1];
    assert run[|run| - 1] == s4;

    DropAndGenerateIsPath(c, s4, a, k, e, y);
    ExtendBy(c, run, DropAndGenerate(s4, a, k, y), a);
    run := run + DropAndGenerate(s4, a, k, y);
  }
}
