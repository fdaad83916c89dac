/**
 The graph pin store under concurrency: a reader that misses reads the graph and adds the
 list to the cache later; a writer commits its merges and invalidates later, or never if it sees
 an error behind its commit.  The cache is that of one process; of the others only what they do to
 the graph is seen.
 */
module PinRaces {
  import opened Common
  import opened Timestamps
  import opened Pins
  import opened GraphPins

  datatype Reader = Resting | Holding(key: TableKey, rows: Listing)

  datatype Writer = Ready | Committed(key: TableKey)

  datatype Sys = Sys(w: World, readers: seq<Reader>, writers: seq<Writer>)

  datatype Action =
    | Read(reader: nat, key: TableKey, rows: Listing)
    | Add(adder: nat)
    | Commit(writer: nat, tenant: TenantId, pin: Pin)
    | Invalidate(invalidator: nat)
    | Abandon(abandoner: nat)
    | Foreign(tenant: TenantId, pin: Pin)
    | Background(op: Op)

  /** What happens around readers and writers: sweeps, evictions, new tables, time. */
  predicate IsBackground(op: Op) {
    op.Sweep? || op.Evict? || op.NewTable? || op.Advance?
  }

  function Cached(s: Sys, cache: map<TableKey, Listing>): Sys {
    s.(w := s.w.(s := s.w.s.(cache := cache)))
  }

  ghost predicate Acts(size: nat, s: Sys, a: Action, s': Sys) {
    match a
    case Read(i, key, rows) =>
      && i < |s.readers| && s.readers[i] == Resting
      && Lists(rows, Active(s.w.s.graph, key, s.w.now))
      && s' == s.(readers := s.readers[i := Holding(key, rows)])
    case Add(i) =>
      && i < |s.readers| && s.readers[i].Holding?
      && LruAdded(s.w.s.cache, s'.w.s.cache, s.readers[i].key, s.readers[i].rows, size)
      && s' == Cached(s, s'.w.s.cache).(readers := s.readers[i := Resting])
    case Commit(j, t, p) =>
      && j < |s.writers| && s.writers[j] == Ready
      && s' == s.(w := s.w.(s := s.w.s.(graph := AfterMerge(s.w.s.graph, t, p))),
                  writers := s.writers[j := Committed(KeyOf(t, p))])
    case Invalidate(j) =>
      && j < |s.writers| && s.writers[j].Committed?
      && s' == Cached(s, s.w.s.cache - {s.writers[j].key}).(writers := s.writers[j := Ready])
    case Abandon(j) =>
      j < |s.writers| && s.writers[j].Committed? && s' == s.(writers := s.writers[j := Ready])
    case Foreign(t, p) =>
      s' == s.(w := s.w.(s := AfterMergeOnly(s.w.s, t, p)))
    case Background(op) =>
      IsBackground(op) && Does(size, s.w, op, s'.w) && s' == s.(w := s'.w)
  }

  // ---- The law ----

  /** A writer has committed for this table and has yet to invalidate it. */
  ghost predicate WriterPending(s: Sys, key: TableKey) {
    exists j :: 0 <= j < |s.writers| && s.writers[j] == Committed(key)
  }

  ghost predicate ReaderHolds(s: Sys, key: TableKey) {
    exists i :: 0 <= i < |s.readers| && s.readers[i].Holding? && s.readers[i].key == key
  }

  /** No cached list misses an active pin, unless a writer has yet to invalidate it or give up. */
  ghost predicate Law(s: Sys) {
    forall key :: key in s.w.s.cache && !WriterPending(s, key) ==> ListComplete(s.w, key)
  }

  ghost predicate Complete(w: World, key: TableKey, rows: Listing) {
    forall r :: r in Active(w.s.graph, key, w.now) ==> r in rows
  }

  // ---- When a step keeps the law ----

  /** Merges of this process or of another one. */
  predicate Merges(a: Action) {
    a.Commit? || a.Foreign?
  }

  /** The row a committed pin shows in queries. */
  function CommitRow(a: Action): Row
    requires Merges(a)
  {
    RowOf(PinId(a.tenant, a.pin.name), NodeOf(a.pin))
  }

  /** An add does no harm: a writer will still invalidate the list, or the list is complete. */
  ghost predicate AddIsHarmless(s: Sys, i: nat) {
    i < |s.readers| && s.readers[i].Holding? ==>
      WriterPending(s, s.readers[i].key) || Complete(s.w, s.readers[i].key, s.readers[i].rows)
  }

  /** A settled list of another table that the pin name keeps an edge to. */
  ghost predicate SettledElsewhere(s: Sys, t: TenantId, p: Pin, key: TableKey) {
    key in s.w.s.cache && !WriterPending(s, key) && AlsoPins(s.w.s.graph, t, p, key)
  }

  /** A commit does no harm: settled lists of other tables of its pin name have the pin as issued. */
  ghost predicate CommitIsHarmless(s: Sys, t: TenantId, p: Pin) {
    forall key :: SettledElsewhere(s, t, p, key) && ActiveAt(NodeOf(p), s.w.now) ==>
      RowOf(PinId(t, p.name), NodeOf(p)) in s.w.s.cache[key]
  }

  /** Another writer of the table has yet to invalidate it. */
  ghost predicate OtherPending(s: Sys, j: nat, key: TableKey) {
    exists k :: 0 <= k < |s.writers| && k != j && s.writers[k] == Committed(key)
  }

  /** Giving up the invalidation does no harm: another will come, or the list, if cached, is complete. */
  ghost predicate AbandonIsHarmless(s: Sys, j: nat) {
    j < |s.writers| && s.writers[j].Committed? ==>
      var key := s.writers[j].key;
      OtherPending(s, j, key) || (key in s.w.s.cache ==> ListComplete(s.w, key))
  }

  ghost predicate SettledShows(s: Sys, t: TenantId, p: Pin, key: TableKey) {
    key in s.w.s.cache && !WriterPending(s, key) && ShowsIn(s.w.s.graph, t, p, key)
  }

  /** A commit of another process does no harm: settled lists of the pin's tables have it as issued. */
  ghost predicate ForeignIsHarmless(s: Sys, t: TenantId, p: Pin) {
    forall key :: SettledShows(s, t, p, key) && ActiveAt(NodeOf(p), s.w.now) ==>
      RowOf(PinId(t, p.name), NodeOf(p)) in s.w.s.cache[key]
  }

  ghost predicate Harmless(s: Sys, a: Action) {
    && (a.Add? ==> AddIsHarmless(s, a.adder))
    && (a.Commit? ==> CommitIsHarmless(s, a.tenant, a.pin))
    && (a.Abandon? ==> AbandonIsHarmless(s, a.abandoner))
    && (a.Foreign? ==> ForeignIsHarmless(s, a.tenant, a.pin))
  }

  lemma BackgroundShrinks(size: nat, w: World, op: Op, w': World, key: TableKey)
    requires IsBackground(op) && Does(size, w, op, w')
    ensures Active(w'.s.graph, key, w'.now) <= Active(w.s.graph, key, w.now)
    ensures key in w'.s.cache ==> key in w.s.cache && w'.s.cache[key] == w.s.cache[key]
  {
    hide LexLess, Rfc3339;
    match op
    case Sweep(t) => SweepIsInvisible(w.s.graph, t, w.now, key, w.now);
    case Evict(_) =>
    case NewTable(_) => SelectionDecides(w'.s.graph, w.s.graph, key, w.now);
    case Advance(to) => LaterIsFewer(w.s.graph, key, w.now, to);
  }

  /** A list that the law speaks of is complete. */
  lemma Settled(s: Sys, key: TableKey)
    requires Law(s) && key in s.w.s.cache && !WriterPending(s, key)
    ensures ListComplete(s.w, key)
  {
  }

  /** Steps that can do harm: an add, a commit here or elsewhere, an abandoned invalidation. */
  predicate Risky(a: Action) {
    a.Add? || a.Abandon? || Merges(a)
  }

  /** All others always keep the law. */
  lemma QuietStepKeepsLaw(size: nat, s: Sys, a: Action, s': Sys)
    requires Law(s) && Acts(size, s, a, s') && !Risky(a)
    ensures Law(s')
  {
    hide Active, Does, Law;
    forall key | key in s'.w.s.cache && !WriterPending(s', key)
      ensures ListComplete(s'.w, key)
    {
      if a.Background? {
        BackgroundShrinks(size, s.w, a.op, s'.w, key);
      }
      PendingStays(size, s, a, s', key);
      Settled(s, key);
    }
    LawIs(s');
  }

  /** A writer stays pending until its own invalidation removes the list. */
  lemma PendingStays(size: nat, s: Sys, a: Action, s': Sys, key: TableKey)
    requires Acts(size, s, a, s') && !a.Abandon?
    ensures WriterPending(s, key) ==> WriterPending(s', key) || (a.Invalidate? && key !in s'.w.s.cache)
  {
    hide Active, Does, AfterMerge;
    if j :| 0 <= j < |s.writers| && s.writers[j] == Committed(key) {
      if !(a.Invalidate? && a.invalidator == j) {
        assert s'.writers[j] == Committed(key);
      }
    }
  }

  lemma LawIs(s: Sys)
    requires forall key :: key in s.w.s.cache && !WriterPending(s, key) ==> ListComplete(s.w, key)
    ensures Law(s)
  {
  }

  /** An add keeps the law exactly when a writer of the table is pending or the list is complete now. */
  lemma AddKeepsLawIff(size: nat, s: Sys, i: nat, s': Sys)
    requires Law(s) && Acts(size, s, Add(i), s')
    ensures Law(s') <==> AddIsHarmless(s, i)
  {
    hide Active;
    var me := s.readers[i];
    assert forall key :: WriterPending(s', key) <==> WriterPending(s, key);
    assert s'.w.s.cache[me.key] == me.rows;
    if AddIsHarmless(s, i) {
      forall key | key in s'.w.s.cache && !WriterPending(s', key)
        ensures ListComplete(s'.w, key)
      {
        if key != me.key {
          Settled(s, key);
        }
      }
    } else {
      assert !ListComplete(s'.w, me.key);
    }
  }

  /** A merge adds at most the row of its own pin to a query, and only for tables that the pin then points to. */
  lemma MergeAddsOneRow(g: Graph, t: TenantId, p: Pin, key: TableKey, now: Instant, r: Row)
    requires r in Active(AfterMerge(g, t, p), key, now)
    ensures r in Active(g, key, now) || (r == RowOf(PinId(t, p.name), NodeOf(p)) && ShowsIn(g, t, p, key))
  {
    hide LexLess, Rfc3339;
    var h := AfterMerge(g, t, p);
    var id :| id in h.nodes && Selected(h, id, key, now) && RowOf(id, h.nodes[id]) == r;
    if id != PinId(t, p.name) {
      assert Selected(g, id, key, now);
    }
  }

  lemma PendingAfterCommit(size: nat, s: Sys, a: Action, s': Sys, key: TableKey)
    requires a.Commit? && Acts(size, s, a, s')
    ensures WriterPending(s', key) <==> WriterPending(s, key) || key == KeyOf(a.tenant, a.pin)
  {
    hide AfterMerge;
    assert s'.writers[a.writer] == Committed(KeyOf(a.tenant, a.pin));
    if j :| 0 <= j < |s.writers| && s.writers[j] == Committed(key) {
      assert s'.writers[j] == Committed(key);
    }
  }

  /** A commit keeps the law exactly when no settled list of another table of its pin name lacks the pin. */
  lemma CommitKeepsLawIff(size: nat, s: Sys, a: Action, s': Sys)
    requires Law(s) && a.Commit? && Acts(size, s, a, s')
    ensures Law(s') <==> CommitIsHarmless(s, a.tenant, a.pin)
  {
    hide Active, AfterMerge, WriterPending, LexLess, Rfc3339, ActiveAt;
    forall key
      ensures WriterPending(s', key) <==> WriterPending(s, key) || key == KeyOf(a.tenant, a.pin)
    {
      PendingAfterCommit(size, s, a, s', key);
    }
    forall key | key in s.w.s.cache && !WriterPending(s', key)
      ensures ListComplete(s'.w, key) <==>
        (AlsoPins(s.w.s.graph, a.tenant, a.pin, key) && ActiveAt(NodeOf(a.pin), s.w.now) ==>
          CommitRow(a) in s.w.s.cache[key])
    {
      Settled(s, key);
      MergedCompleteIff(s.w.s.graph, a.tenant, a.pin, key, s.w.now, s.w.s.cache[key]);
    }
  }

  lemma PendingAfterAbandon(s: Sys, j: nat, s': Sys, key: TableKey)
    requires j < |s.writers| && s.writers[j].Committed? && s' == s.(writers := s.writers[j := Ready])
    ensures WriterPending(s', key) <==> OtherPending(s, j, key)
    ensures WriterPending(s, key) <==> OtherPending(s, j, key) || key == s.writers[j].key
  {
    if k :| 0 <= k < |s.writers| && k != j && s.writers[k] == Committed(key) {
      assert s'.writers[k] == Committed(key);
    }
    assert key == s.writers[j].key ==> s.writers[j] == Committed(key);
  }

  /**
   A writer that commits and returns without invalidating keeps the law exactly when another writer
   of the table is pending, or its list is not cached or complete now.
   */
  lemma AbandonKeepsLawIff(size: nat, s: Sys, j: nat, s': Sys)
    requires Law(s) && Acts(size, s, Abandon(j), s')
    ensures Law(s') <==> AbandonIsHarmless(s, j)
  {
    hide Active, WriterPending, OtherPending;
    forall key
      ensures WriterPending(s', key) <==> OtherPending(s, j, key)
      ensures WriterPending(s, key) <==> OtherPending(s, j, key) || key == s.writers[j].key
    {
      PendingAfterAbandon(s, j, s', key);
    }
    forall key | key in s.w.s.cache && !WriterPending(s, key)
      ensures ListComplete(s'.w, key)
    {
      Settled(s, key);
    }
    assert s.writers[j].key in s.w.s.cache ==>
      (ListComplete(s'.w, s.writers[j].key) <==> ListComplete(s.w, s.writers[j].key));
  }

  /** A commit of another process keeps it exactly when no settled list of the pin's tables lacks the pin. */
  lemma ForeignKeepsLawIff(size: nat, s: Sys, a: Action, s': Sys)
    requires Law(s) && a.Foreign? && Acts(size, s, a, s')
    ensures Law(s') <==> ForeignIsHarmless(s, a.tenant, a.pin)
  {
    hide Active, AfterMerge, LexLess, Rfc3339, ActiveAt;
    assert forall key :: WriterPending(s', key) <==> WriterPending(s, key);
    forall key | key in s.w.s.cache && !WriterPending(s', key)
      ensures ListComplete(s'.w, key) <==>
        (ShowsIn(s.w.s.graph, a.tenant, a.pin, key) && ActiveAt(NodeOf(a.pin), s.w.now) ==>
          CommitRow(a) in s.w.s.cache[key])
    {
      Settled(s, key);
      MergedCompleteIff(s.w.s.graph, a.tenant, a.pin, key, s.w.now, s.w.s.cache[key]);
    }
  }

  /** What each single step does to the law. */
  lemma StepKeepsLawIff(size: nat, s: Sys, a: Action, s': Sys)
    requires Law(s) && Acts(size, s, a, s')
    ensures Law(s') <==> Harmless(s, a)
  {
    hide Law, Acts, AddIsHarmless, CommitIsHarmless, AbandonIsHarmless, ForeignIsHarmless;
    match a
    case Abandon(j) => AbandonKeepsLawIff(size, s, j, s');
    case Foreign(_, _) => ForeignKeepsLawIff(size, s, a, s');
    case Add(i) => AddKeepsLawIff(size, s, i, s');
    case Commit(_, _, _) => CommitKeepsLawIff(size, s, a, s');
    case _ => QuietStepKeepsLaw(size, s, a, s');
  }

  // ---- Runs ----

  ghost predicate ActionAt(size: nat, run: seq<Sys>, acts: seq<Action>, n: nat)
    requires |run| == |acts| + 1 && n < |acts|
  {
    Acts(size, run[n], acts[n], run[n + 1])
  }

  ghost predicate HarmlessAt(run: seq<Sys>, acts: seq<Action>, n: nat)
    requires |run| == |acts| + 1 && n < |acts|
  {
    Harmless(run[n], acts[n])
  }

  /** Nothing cached, nobody under way. */
  ghost predicate Quiet(s: Sys) {
    && s.w.s.cache == map[]
    && (forall i :: 0 <= i < |s.readers| ==> s.readers[i] == Resting)
    && (forall j :: 0 <= j < |s.writers| ==> s.writers[j] == Ready)
  }

  lemma {:induction false} LawUpTo(size: nat, run: seq<Sys>, acts: seq<Action>, n: nat)
    requires |run| == |acts| + 1 && n < |run| && Law(run[0])
    requires forall m: nat :: m < |acts| ==> ActionAt(size, run, acts, m)
    requires forall m: nat :: m < n ==> HarmlessAt(run, acts, m)
    ensures Law(run[n])
  {
    hide Law, Acts, Harmless;
    if n > 0 {
      LawUpTo(size, run, acts, n - 1);
      assert ActionAt(size, run, acts, n - 1) && HarmlessAt(run, acts, n - 1);
      StepKeepsLawIff(size, run[n - 1], acts[n - 1], run[n]);
    }
  }

  /**
   The law holds at every point of a run exactly when each of its adds, commits, abandoned
   invalidations and commits of other processes is harmless.
   */
  lemma LawHoldsIff(size: nat, run: seq<Sys>, acts: seq<Action>)
    requires |run| == |acts| + 1 && Law(run[0])
    requires forall m: nat :: m < |acts| ==> ActionAt(size, run, acts, m)
    ensures (forall n: nat :: n < |run| ==> Law(run[n])) <==> (forall n: nat :: n < |acts| ==> HarmlessAt(run, acts, n))
  {
    hide Law, Acts, Harmless;
    if forall n: nat :: n < |acts| ==> HarmlessAt(run, acts, n) {
      forall n: nat | n < |run| {
        LawUpTo(size, run, acts, n);
      }
    }
    if forall n: nat :: n < |run| ==> Law(run[n]) {
      forall n: nat | n < |acts|
        ensures HarmlessAt(run, acts, n)
      {
        assert ActionAt(size, run, acts, n) && Law(run[n]) && Law(run[n + 1]);
        StepKeepsLawIff(size, run[n], acts[n], run[n + 1]);
      }
    }
  }

  // ---- What happened since the read ----

  ghost predicate Holds(s: Sys, i: nat, key: TableKey, rows: Listing) {
    i < |s.readers| && s.readers[i] == Holding(key, rows)
  }

  /** A reader that holds a list read it in the run and has held it since. */
  lemma {:induction false} HeldSince(
      size: nat, run: seq<Sys>, acts: seq<Action>, n: nat, i: nat, key: TableKey, rows: Listing)
    returns (l: nat)
    requires |run| == |acts| + 1 && n < |run| && Quiet(run[0]) && Holds(run[n], i, key, rows)
    requires forall m: nat :: m < |acts| ==> ActionAt(size, run, acts, m)
    ensures l < n && acts[l] == Read(i, key, rows)
    ensures forall c: nat :: l < c <= n ==> Holds(run[c], i, key, rows)
  {
    hide AfterMerge, Active, Does;
    assert n > 0;
    assert ActionAt(size, run, acts, n - 1);
    if acts[n - 1] == Read(i, key, rows) {
      l := n - 1;
    } else {
      l := HeldSince(size, run, acts, n - 1, i, key, rows);
    }
  }

  /** Step `c` commits a pin that the queries of this table show. */
  predicate Touches(run: seq<Sys>, acts: seq<Action>, c: nat, key: TableKey)
    requires |run| == |acts| + 1 && c < |acts|
  {
    Merges(acts[c]) && ShowsIn(run[c].w.s.graph, acts[c].tenant, acts[c].pin, key)
  }

  ghost predicate CommittedSince(run: seq<Sys>, acts: seq<Action>, l: nat, n: nat, key: TableKey, r: Row)
    requires |run| == |acts| + 1 && n < |run|
  {
    exists c: nat :: l <= c < n && Touches(run, acts, c, key) && CommitRow(acts[c]) == r
  }

  lemma StepAddsOneRow(size: nat, s: Sys, a: Action, s': Sys, key: TableKey, r: Row)
    requires Acts(size, s, a, s') && r in Active(s'.w.s.graph, key, s'.w.now)
    ensures r in Active(s.w.s.graph, key, s.w.now)
      || (Merges(a) && CommitRow(a) == r && ShowsIn(s.w.s.graph, a.tenant, a.pin, key))
  {
    hide Active, AfterMerge, Does;
    match a
    case Commit(_, t, p) => MergeAddsOneRow(s.w.s.graph, t, p, key, s.w.now, r);
    case Foreign(t, p) => MergeAddsOneRow(s.w.s.graph, t, p, key, s.w.now, r);
    case Background(op) => BackgroundShrinks(size, s.w, op, s'.w, key);
    case _ =>
  }

  /** A row that is active now was so at an earlier point of the run, or was committed since. */
  lemma {:induction false} RowsSince(size: nat, run: seq<Sys>, acts: seq<Action>, l: nat, n: nat, key: TableKey, r: Row)
    requires |run| == |acts| + 1 && l <= n < |run| && r in Active(run[n].w.s.graph, key, run[n].w.now)
    requires forall m: nat :: m < |acts| ==> ActionAt(size, run, acts, m)
    ensures r in Active(run[l].w.s.graph, key, run[l].w.now) || CommittedSince(run, acts, l, n, key, r)
  {
    hide Active, Acts, ShowsIn;
    if l < n {
      assert ActionAt(size, run, acts, n - 1);
      StepAddsOneRow(size, run[n - 1], acts[n - 1], run[n], key, r);
      if r in Active(run[n - 1].w.s.graph, key, run[n - 1].w.now) {
        RowsSince(size, run, acts, l, n - 1, key, r);
      } else {
        assert Touches(run, acts, n - 1, key);
      }
    }
  }

  /** The pin that step `c` committed is active in this table at point `n`. */
  ghost predicate StillActive(run: seq<Sys>, acts: seq<Action>, c: nat, n: nat, key: TableKey)
    requires |run| == |acts| + 1 && c < |acts| && n < |run|
  {
    Touches(run, acts, c, key) && CommitRow(acts[c]) in Active(run[n].w.s.graph, key, run[n].w.now)
  }

  /** Every pin of this table committed since step `l`, if it is active now, is in the list. */
  ghost predicate SinceListed(run: seq<Sys>, acts: seq<Action>, l: nat, n: nat, key: TableKey, rows: Listing)
    requires |run| == |acts| + 1 && n < |run|
  {
    forall c: nat :: l <= c < n && StillActive(run, acts, c, n, key) ==> CommitRow(acts[c]) in rows
  }

  lemma HeldIsCompleteIff(
      size: nat, run: seq<Sys>, acts: seq<Action>, l: nat, n: nat, i: nat, key: TableKey, rows: Listing)
    requires |run| == |acts| + 1 && l < n < |run| && acts[l] == Read(i, key, rows)
    requires forall m: nat :: m < |acts| ==> ActionAt(size, run, acts, m)
    ensures Complete(run[n].w, key, rows) <==> SinceListed(run, acts, l, n, key, rows)
  {
    hide Active, ShowsIn;
    assert ActionAt(size, run, acts, l);
    forall r | r in Active(run[n].w.s.graph, key, run[n].w.now)
      ensures r in rows || CommittedSince(run, acts, l, n, key, r)
    {
      RowsSince(size, run, acts, l, n, key, r);
      if c: nat :| l <= c < n && Touches(run, acts, c, key) && CommitRow(acts[c]) == r {
        assert StillActive(run, acts, c, n, key);
      }
    }
  }

  /**
   An add is harmless exactly when a writer of the table is still to invalidate, or every pin of the
   table committed between the read and the add that is still active is in the list already.
   */
  lemma AddIsHarmlessIff(size: nat, run: seq<Sys>, acts: seq<Action>, n: nat, i: nat, key: TableKey, rows: Listing)
    returns (l: nat)
    requires |run| == |acts| + 1 && n < |acts| && Quiet(run[0]) && acts[n] == Add(i) && Holds(run[n], i, key, rows)
    requires forall m: nat :: m < |acts| ==> ActionAt(size, run, acts, m)
    ensures l < n && acts[l] == Read(i, key, rows)
    ensures AddIsHarmless(run[n], i) <==> WriterPending(run[n], key) || SinceListed(run, acts, l, n, key, rows)
  {
    hide ActionAt, WriterPending, SinceListed, Complete, Quiet;
    l := HeldSince(size, run, acts, n, i, key, rows);
    HeldIsCompleteIff(size, run, acts, l, n, i, key, rows);
  }

  /** A cached list was read at some point of the run. */
  lemma {:induction false} CachedWasRead(size: nat, run: seq<Sys>, acts: seq<Action>, n: nat, key: TableKey)
    returns (l: nat, i: nat)
    requires |run| == |acts| + 1 && n < |run| && Quiet(run[0]) && key in run[n].w.s.cache
    requires forall m: nat :: m < |acts| ==> ActionAt(size, run, acts, m)
    ensures l < n && acts[l] == Read(i, key, run[n].w.s.cache[key])
  {
    hide AfterMerge, Active;
    assert n > 0 && ActionAt(size, run, acts, n - 1);
    var before, rows := run[n - 1], run[n].w.s.cache[key];
    if key in before.w.s.cache && before.w.s.cache[key] == rows {
      l, i := CachedWasRead(size, run, acts, n - 1, key);
    } else {
      CacheGrowsByAdd(size, before, acts[n - 1], run[n], key);
      i := acts[n - 1].adder;
      l := HeldSince(size, run, acts, n - 1, i, key, rows);
    }
  }

  lemma CacheGrowsByAdd(size: nat, s: Sys, a: Action, s': Sys, key: TableKey)
    requires Acts(size, s, a, s') && key in s'.w.s.cache
    requires !(key in s.w.s.cache && s.w.s.cache[key] == s'.w.s.cache[key])
    ensures a.Add? && Holds(s, a.adder, key, s'.w.s.cache[key])
  {
    hide AfterMerge, Active, AfterSweep;
  }

  /**
   Abandoning an invalidation is harmless exactly when another one is pending, the list is not cached, or
   every pin of the table committed since the list was read that is still active is in it.
   */
  lemma AbandonIsHarmlessIff(size: nat, run: seq<Sys>, acts: seq<Action>, n: nat, j: nat, key: TableKey)
    returns (l: nat)
    requires |run| == |acts| + 1 && n < |acts| && Quiet(run[0]) && acts[n] == Abandon(j)
    requires j < |run[n].writers| && run[n].writers[j] == Committed(key)
    requires forall m: nat :: m < |acts| ==> ActionAt(size, run, acts, m)
    ensures key !in run[n].w.s.cache ==> AbandonIsHarmless(run[n], j)
    ensures key in run[n].w.s.cache ==>
      && l < n && acts[l].Read? && acts[l].key == key && acts[l].rows == run[n].w.s.cache[key]
      && (AbandonIsHarmless(run[n], j) <==>
           OtherPending(run[n], j, key) || SinceListed(run, acts, l, n, key, run[n].w.s.cache[key]))
  {
    hide ActionAt, OtherPending, SinceListed, Quiet, Active;
    l := 0;
    if key in run[n].w.s.cache {
      var i: nat;
      l, i := CachedWasRead(size, run, acts, n, key);
      HeldIsCompleteIff(size, run, acts, l, n, i, key, run[n].w.s.cache[key]);
    }
  }

  // ---- A condition that suffices ----

  /** Lists on their way into the cache are complete too. */
  ghost predicate Inv(s: Sys) {
    && Law(s)
    && forall i :: 0 <= i < |s.readers| && s.readers[i].Holding? ==>
      Complete(s.w, s.readers[i].key, s.readers[i].rows)
  }

  /**
   No pin is committed for a table, here or elsewhere, while a reader of it is between its read and its
   add, and no pin name moves.  No invalidation is abandoned, and other processes commit for tables
   only that are not cached here.
   */
  ghost predicate Undisturbed(s: Sys, a: Action) {
    && (Merges(a) ==> !ReaderHolds(s, KeyOf(a.tenant, a.pin)) && NotMoved(s.w.s.graph, a.tenant, a.pin))
    && (a.Foreign? ==> KeyOf(a.tenant, a.pin) !in s.w.s.cache)
    && !a.Abandon?
  }

  ghost predicate UndisturbedAt(run: seq<Sys>, acts: seq<Action>, n: nat)
    requires |run| == |acts| + 1 && n < |acts|
  {
    Undisturbed(run[n], acts[n])
  }

  lemma NothingTouchesHeld(run: seq<Sys>, acts: seq<Action>, c: nat, i: nat, key: TableKey, rows: Listing)
    requires |run| == |acts| + 1 && c < |acts| && UndisturbedAt(run, acts, c) && Holds(run[c], i, key, rows)
    ensures !Touches(run, acts, c, key)
  {
  }

  lemma UndisturbedHeldIsComplete(
      size: nat, run: seq<Sys>, acts: seq<Action>, n: nat, i: nat, key: TableKey, rows: Listing)
    requires |run| == |acts| + 1 && n < |run| && Quiet(run[0]) && Holds(run[n], i, key, rows)
    requires forall m: nat :: m < |acts| ==> ActionAt(size, run, acts, m)
    requires forall m: nat :: m < |acts| ==> UndisturbedAt(run, acts, m)
    ensures Complete(run[n].w, key, rows)
  {
    hide ActionAt, UndisturbedAt, Quiet, Holds, Complete, Touches, Active;
    var l := HeldSince(size, run, acts, n, i, key, rows);
    forall c: nat | l <= c < n
      ensures !Touches(run, acts, c, key)
    {
      if c == l {
        ReadTouchesNothing(run, acts, c, key);
      } else {
        assert Holds(run[c], i, key, rows);
        NothingTouchesHeld(run, acts, c, i, key, rows);
      }
    }
    HeldIsCompleteIff(size, run, acts, l, n, i, key, rows);
  }

  lemma ReadTouchesNothing(run: seq<Sys>, acts: seq<Action>, c: nat, key: TableKey)
    requires |run| == |acts| + 1 && c < |acts| && acts[c].Read?
    ensures !Touches(run, acts, c, key)
  {
  }

  lemma UndisturbedIsHarmless(size: nat, run: seq<Sys>, acts: seq<Action>, n: nat)
    requires |run| == |acts| + 1 && n < |acts| && Quiet(run[0])
    requires forall m: nat :: m < |acts| ==> ActionAt(size, run, acts, m)
    requires forall m: nat :: m < |acts| ==> UndisturbedAt(run, acts, m)
    ensures HarmlessAt(run, acts, n)
  {
    hide ActionAt, Quiet, Complete, WriterPending;
    var s, a := run[n], acts[n];
    assert UndisturbedAt(run, acts, n);
    if a.Add? && a.adder < |s.readers| && s.readers[a.adder].Holding? {
      UndisturbedHeldIsComplete(size, run, acts, n, a.adder, s.readers[a.adder].key, s.readers[a.adder].rows);
    }
  }

  /** The law holds at every point of every undisturbed run, since all of its steps are harmless. */
  lemma UndisturbedRunsKeepLaw(size: nat, run: seq<Sys>, acts: seq<Action>, n: nat)
    requires |run| == |acts| + 1 && n < |run| && Quiet(run[0])
    requires forall m: nat :: m < |acts| ==> ActionAt(size, run, acts, m)
    requires forall m: nat :: m < |acts| ==> UndisturbedAt(run, acts, m)
    ensures Inv(run[n])
  {
    hide ActionAt, UndisturbedAt, HarmlessAt, Complete;
    forall m: nat | m < |acts| {
      UndisturbedIsHarmless(size, run, acts, m);
    }
    LawHoldsIff(size, run, acts);
    forall i: nat | i < |run[n].readers| && run[n].readers[i].Holding?
      ensures Complete(run[n].w, run[n].readers[i].key, run[n].readers[i].rows)
    {
      UndisturbedHeldIsComplete(size, run, acts, n, i, run[n].readers[i].key, run[n].readers[i].rows);
    }
  }

  /** So between operations, and whenever its writers are done, no list in use misses an active pin. */
  lemma UndisturbedReadersMissNothing(size: nat, run: seq<Sys>, acts: seq<Action>, n: nat, key: TableKey)
    requires |run| == |acts| + 1 && n < |run| && Quiet(run[0])
    requires forall m: nat :: m < |acts| ==> ActionAt(size, run, acts, m)
    requires forall m: nat :: m < |acts| ==> UndisturbedAt(run, acts, m)
    requires key in run[n].w.s.cache && !WriterPending(run[n], key)
    ensures forall r :: r in Active(run[n].w.s.graph, key, run[n].w.now) ==> r in run[n].w.s.cache[key]
  {
    hide Active, ActionAt, UndisturbedAt;
    UndisturbedRunsKeepLaw(size, run, acts, n);
    Settled(run[n], key);
  }

  // ---- A disturbed reader ----

  /** One reader, one writer, one table. */
  function LonelySys(s: State, now: Instant, r: Reader, wr: Writer): Sys {
    Sys(World(s, now), [r], [wr])
  }

  /**
   A harmful add: a reader that read the empty table before a writer committed
   adds its list after the writer has invalidated.  The writer is done and its pin stays hidden.
   */
  lemma LateAddHidesPin(now: Instant, expiry: Instant) returns (run: seq<Sys>, acts: seq<Action>)
    requires SecondOf(now) < SecondOf(expiry)
    ensures |run| == |acts| + 1 == 5 && Quiet(run[0])
    ensures forall m: nat :: m < 4 ==> ActionAt(1, run, acts, m)
    ensures forall m: nat :: m < 4 && acts[m].Commit? ==> NotMoved(run[m].w.s.graph, acts[m].tenant, acts[m].pin)
    ensures run[4].readers == [Resting] && run[4].writers == [Ready] && !Law(run[4])
  {
    hide LexLess, Rfc3339, AfterMerge, Active;
    var key := Table("a");
    var pin := MovingPin("a", expiry);
    var g := Graph({key}, map[], {});
    var h := AfterMerge(g, "t", pin);
    var s0 := LonelySys(State(g, map[]), now, Resting, Ready);
    var s1 := LonelySys(State(g, map[]), now, Holding(key, []), Ready);
    var s2 := LonelySys(State(h, map[]), now, Holding(key, []), Committed(key));
    var s3 := LonelySys(State(h, map[]), now, Holding(key, []), Ready);
    var s4 := LonelySys(State(h, map[key := []]), now, Resting, Ready);
    run := [s0, s1, s2, s3, s4];
    acts := [Read(0, key, []), Commit(0, "t", pin), Invalidate(0), Add(0)];
    PinShows(g, h, now, expiry);
    assert ActionAt(1, run, acts, 0) by {
      NothingListed(g, key, now);
    }
    assert ActionAt(1, run, acts, 1);
    assert ActionAt(1, run, acts, 2) by {
      assert s2.w.s.cache - {key} == map[];
    }
    assert ActionAt(1, run, acts, 3);
    assert key in s4.w.s.cache && !WriterPending(s4, key) && !ListComplete(s4.w, key);
  }

  /**
   An abandoned invalidation, or a commit of another process, does the same to a list that was cached in
   good time: no name moves and no add is late.
   */
  lemma StaleListHidesPin(now: Instant, expiry: Instant, foreign: bool) returns (run: seq<Sys>, acts: seq<Action>)
    requires SecondOf(now) < SecondOf(expiry)
    ensures |run| == |acts| + 1 && Quiet(run[0]) && |acts| >= 3 && acts[0].Read? && acts[1].Add?
    ensures forall m: nat :: m < |acts| ==> ActionAt(1, run, acts, m)
    ensures if foreign then |acts| == 3 && acts[2].Foreign? else |acts| == 4 && acts[2].Commit? && acts[3].Abandon?
    ensures NotMoved(run[2].w.s.graph, acts[2].tenant, acts[2].pin)
    ensures run[|acts|].readers == [Resting] && run[|acts|].writers == [Ready] && !Law(run[|acts|])
  {
    hide LexLess, Rfc3339, AfterMerge, Active;
    var key, pin := Table("a"), MovingPin("a", expiry);
    var g := Graph({key}, map[], {});
    var h := AfterMerge(g, "t", pin);
    var cached := map[key := []];
    var s0 := LonelySys(State(g, map[]), now, Resting, Ready);
    var s1 := LonelySys(State(g, map[]), now, Holding(key, []), Ready);
    var s2 := LonelySys(State(g, cached), now, Resting, Ready);
    var s3 := LonelySys(State(h, cached), now, Resting, Committed(key));
    var s4 := LonelySys(State(h, cached), now, Resting, Ready);
    NothingListed(g, key, now);
    assert Acts(1, s0, Read(0, key, []), s1) && Acts(1, s1, Add(0), s2);
    assert Acts(1, s2, Foreign("t", pin), s4) && Acts(1, s2, Commit(0, "t", pin), s3) && Acts(1, s3, Abandon(0), s4);
    if foreign {
      run, acts := [s0, s1, s2, s4], [Read(0, key, []), Add(0), Foreign("t", pin)];
    } else {
      run, acts := [s0, s1, s2, s3, s4], [Read(0, key, []), Add(0), Commit(0, "t", pin), Abandon(0)];
    }
    PinShows(g, h, now, expiry);
    assert key in s4.w.s.cache && !WriterPending(s4, key) && !ListComplete(s4.w, key);
  }

  lemma NothingListed(g: Graph, key: TableKey, now: Instant)
    requires g.nodes == map[]
    ensures Lists([], Active(g, key, now))
  {
    assert Active(g, key, now) == {};
  }

  lemma PinShows(g: Graph, h: Graph, now: Instant, expiry: Instant)
    requires SecondOf(now) < SecondOf(expiry)
    requires Table("a") in g.tables && h == AfterMerge(g, "t", MovingPin("a", expiry))
    ensures exists r :: r in Active(h, Table("a"), now)
  {
    var id := PinId("t", "p");
    SweepAndQueryPartition(NodeOf(MovingPin("a", expiry)), now);
    hide LexLess, Rfc3339;
    assert Selected(h, id, Table("a"), now);
    assert RowOf(id, h.nodes[id]) in Active(h, Table("a"), now);
  }
}
