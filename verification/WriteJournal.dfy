/**
 The write journal of a tenant's graph: snapshots, write events and the edges between tables,
 principals and snapshots, as three kinds of writer merge them.

 A transaction is one step: it commits all its merges or none.  Row-level security confines
 every match to the tenant's own vertices.
 */
module WriteJournal {
  import opened Common

  type Tenant = string

  datatype TableName = TableName(namespace: string, name: string)

  datatype SnapKey = SnapKey(tenant: Tenant, location: string)

  /** A property is None until some merge sets it. */
  datatype Snapshot = Snapshot(
    key: SnapKey, id: Option<int>, parentId: Option<int>,
    committedAt: Option<string>, operation: Option<string>, lastSeenAt: Option<string>)

  datatype Decision = Approved | Rejected

  datatype EventKey = EventKey(tenant: Tenant, commitId: string)

  datatype WriteEvent = WriteEvent(
    committer: string, snapshotId: Option<int>, decision: Decision,
    reason: string, createdAt: string, source: string)

  /** A vertex or edge whose properties are kept once they are set. */
  datatype Keyed<K, V> = Keyed(key: K, value: V)

  datatype IntendedKey = IntendedKey(tenant: Tenant, sub: string, table: TableName)

  datatype Span = Span(firstAt: string, lastAt: string)

  datatype ActualKey = ActualKey(snapshot: SnapKey, table: TableName)

  datatype AuditRow = AuditRow(
    tenant: Tenant, sub: string, namespace: seq<string>, name: string, reason: string,
    decision: Decision, source: string, bodyHash: string)

  datatype Store = Store(
    snapshots: seq<Snapshot>, events: seq<Keyed<EventKey, WriteEvent>>, intended: seq<Keyed<IntendedKey, Span>>,
    actual: seq<Keyed<ActualKey, string>>, audit: seq<AuditRow>)

  const EMPTY: Store := Store([], [], [], [], [])

  // ---- Merging a vertex or an edge on its key ----

  /** The snapshot the ingest path was given. */
  datatype Ingest = Ingest(id: int, parentId: int, committedAt: string, operation: string)

  function Coalesce<T>(current: Option<T>, value: T): Option<T> {
    if current.Some? then current else Some(value)
  }

  /** What an ingest merge sets on a snapshot vertex, found or new. */
  function Ingested(s: Snapshot, g: Ingest): Snapshot {
    Snapshot(s.key, Coalesce(s.id, g.id), Coalesce(s.parentId, g.parentId),
      Coalesce(s.committedAt, g.committedAt), Coalesce(s.operation, g.operation), Some(g.committedAt))
  }

  /** The audit and detection paths merge the bare key. */
  function Touched(s: Snapshot, g: Option<Ingest>): Snapshot {
    if g.Some? then Ingested(s, g.value) else s
  }

  function Bare(key: SnapKey): Snapshot {
    Snapshot(key, None, None, None, None, None)
  }

  predicate HasSnapshot(ss: seq<Snapshot>, key: SnapKey) {
    exists i :: 0 <= i < |ss| && ss[i].key == key
  }

  /** MERGE sets properties on every match, or creates one vertex. */
  function MergeSnapshots(ss: seq<Snapshot>, key: SnapKey, g: Option<Ingest>): seq<Snapshot> {
    if HasSnapshot(ss, key)
    then seq(|ss|, i requires 0 <= i < |ss| => if ss[i].key == key then Touched(ss[i], g) else ss[i])
    else ss + [Touched(Bare(key), g)]
  }

  predicate HasKey<K(==), V>(xs: seq<Keyed<K, V>>, key: K) {
    exists i :: 0 <= i < |xs| && xs[i].key == key
  }

  /** MERGE of an event or an actual write: what is there keeps its properties. */
  function MergeFirst<K(==), V>(xs: seq<Keyed<K, V>>, x: Keyed<K, V>): seq<Keyed<K, V>> {
    if HasKey(xs, x.key) then xs else xs + [x]
  }

  /** MERGE of an intended write, which also dates the latest attempt. */
  function MergeSpan<K(==)>(xs: seq<Keyed<K, Span>>, key: K, now: string): seq<Keyed<K, Span>> {
    if HasKey(xs, key)
    then seq(|xs|, i requires 0 <= i < |xs| =>
      if xs[i].key == key then Keyed(key, Span(xs[i].value.firstAt, now)) else xs[i])
    else xs + [Keyed(key, Span(now, now))]
  }

  // ---- The three writers ----

  datatype Emission = Emission(
    namespace: seq<string>, name: string, decision: Decision, sub: string, source: string,
    bodyHash: string, result: Option<CommitResult>, reason: string, commitId: string, now: string)

  function TableOf(e: Emission): TableName {
    TableName(JoinNamespace(e.namespace), e.name)
  }

  function EventOf(t: Tenant, e: Emission): Keyed<EventKey, WriteEvent> {
    Keyed(EventKey(t, e.commitId),
      WriteEvent(e.sub, if e.result.Some? then Some(e.result.value.snapshotId) else None,
        e.decision, e.reason, e.now, e.source))
  }

  /** The snapshot an approved commit wrote, if the catalog names one. */
  predicate Writes(e: Emission) {
    e.decision.Approved? && e.result.Some? && e.result.value.location != ""
  }

  /** The edge from the snapshot to the table, with the time of the write. */
  function WriteOf(t: Tenant, e: Emission): Keyed<ActualKey, string>
    requires Writes(e)
  {
    Keyed(ActualKey(SnapKey(t, e.result.value.location), TableOf(e)), e.now)
  }

  function AuditOf(t: Tenant, e: Emission): AuditRow {
    AuditRow(t, e.sub, e.namespace, e.name, e.reason, e.decision, e.source, e.bodyHash)
  }

  function AfterEmit(s: Store, t: Tenant, e: Emission): Store {
    Store(
      if Writes(e) then MergeSnapshots(s.snapshots, WriteOf(t, e).key.snapshot, None) else s.snapshots,
      MergeFirst(s.events, EventOf(t, e)),
      MergeSpan(s.intended, IntendedKey(t, e.sub, TableOf(e)), e.now),
      if Writes(e) then MergeFirst(s.actual, WriteOf(t, e)) else s.actual,
      s.audit + [AuditOf(t, e)])
  }

  /** Characters the event, person and table merges splice into Cypher. */
  predicate Spliceable(t: Tenant, e: Emission) {
    && SafeLiteral(e.commitId) && SafeLiteral(t) && SafeLiteral(e.sub) && SafeLiteral(e.reason)
    && SafeLiteral(e.source) && SafeLiteral(e.name) && SafeLiteral(JoinNamespace(e.namespace))
    && (Writes(e) ==> SafeLiteral(e.result.value.location))
  }

  /** The edges under `key` have a new last date; nothing else about the edges is new. */
  predicate DatedLater<K(==)>(xs: seq<Keyed<K, Span>>, xs': seq<Keyed<K, Span>>, key: K, now: string) {
    |xs'| == |xs| && forall i :: 0 <= i < |xs| ==>
      xs'[i] == if xs[i].key == key then Keyed(key, Span(xs[i].value.firstAt, now)) else xs[i]
  }

  datatype Outcome = Done | NoTenant | EmptyLocation | UnsafeLiteral | StoreFailed | Panicked

  class Journal {
    var store: Store

    constructor ()
      ensures store == EMPTY
    {
      store := EMPTY;
    }

    /** The ingest path; the merge is there whenever its transaction commits. */
    method MergeSnapshot(t: Tenant, location: string, g: Ingest, end: TxEnd) returns (o: Outcome)
      modifies this
      ensures o == (
        if location == "" then EmptyLocation
        else if !(SafeLiteral(location) && SafeLiteral(t) && SafeLiteral(g.operation)) then UnsafeLiteral
        else if end.Succeeded? then Done else StoreFailed)
      ensures store == if o.Done? || (o.StoreFailed? && end.CommittedThenFailed?)
        then Step(old(store), MergeIngest(SnapKey(t, location), g)) else old(store)
    {
      if location == "" {
        return EmptyLocation;
      }
      var fields := [location, t, g.operation];
      for i := 0 to |fields|
        invariant forall j :: 0 <= j < i ==> SafeLiteral(fields[j])
        invariant store == old(store)
      {
        if !SafeLiteral(fields[i]) {
          return UnsafeLiteral;
        }
      }
      assert SafeLiteral(fields[0]) && SafeLiteral(fields[1]) && SafeLiteral(fields[2]);
      if end.RolledBack? {
        return StoreFailed;
      }
      store := store.(snapshots := MergeSnapshots(store.snapshots, SnapKey(t, location), Some(g)));
      return if end.Succeeded? then Done else StoreFailed;
    }

    /**
     The gateway's audit path, one transaction.  `fails(n)` tells whether the database gives up at
     step n: the event, person, table, intended write, snapshot, actual write, audit row, commit, or
     the release of the connection, when everything is written and the caller sees an error.
     */
    method EmitWriteEvent(tenant: Option<Tenant>, e: Emission, fails: nat -> bool) returns (o: Outcome)
      modifies this
      ensures o.Done? ==> tenant.Some? && store == Step(old(store), Emit(tenant.value, e))
      ensures !o.Done? && !(o.StoreFailed? && fails(8)) ==> store == old(store)
      ensures o.StoreFailed? ==> tenant.Some? && store in {old(store), Step(old(store), Emit(tenant.value, e))}
      ensures o.NoTenant? <==> tenant.None?
      ensures o in {Done, NoTenant, StoreFailed, Panicked} && (o.StoreFailed? ==> exists n :: fails(n))
      ensures o.Panicked? ==> !Spliceable(tenant.value, e)
      ensures tenant.Some? && (forall n :: !fails(n)) ==> o == if Spliceable(tenant.value, e) then Done else Panicked
      ensures o.Done? ==>
        && SafeLiteral(e.commitId) && SafeLiteral(tenant.value) && SafeLiteral(e.sub) && SafeLiteral(e.reason)
        && SafeLiteral(e.source) && SafeLiteral(e.name) && SafeLiteral(JoinNamespace(e.namespace))
        && (e.decision == Approved && e.result.Some? ==> SafeLiteral(e.result.value.location))
      // What is written, field by field from the emission; all of it or nothing.
      ensures o.Done? || store != old(store) ==>
        && tenant.Some? && (o.Done? || o.StoreFailed?)
        && var t, table := tenant.value, TableName(JoinNamespace(e.namespace), e.name);
           var key, person := EventKey(t, e.commitId), IntendedKey(t, e.sub, table);
           && store.audit == old(store).audit
              + [AuditRow(t, e.sub, e.namespace, e.name, e.reason, e.decision, e.source, e.bodyHash)]
           && (if HasKey(old(store).events, key) then store.events == old(store).events
               else store.events == old(store).events + [Keyed(key,
                 WriteEvent(e.sub, if e.result.Some? then Some(e.result.value.snapshotId) else None,
                   e.decision, e.reason, e.now, e.source))])
           && (if HasKey(old(store).intended, person)
               then DatedLater(old(store).intended, store.intended, person, e.now)
               else store.intended == old(store).intended + [Keyed(person, Span(e.now, e.now))])
           && (if e.decision == Approved && e.result.Some? && e.result.value.location != ""
               then
                 var snapshot := SnapKey(t, e.result.value.location);
                 && (if HasKey(old(store).actual, ActualKey(snapshot, table)) then store.actual == old(store).actual
                     else store.actual == old(store).actual + [Keyed(ActualKey(snapshot, table), e.now)])
                 && (if HasSnapshot(old(store).snapshots, snapshot) then store.snapshots == old(store).snapshots
                     else store.snapshots == old(store).snapshots + [Snapshot(snapshot, None, None, None, None, None)])
               else store.actual == old(store).actual && store.snapshots == old(store).snapshots)
    {
      if tenant.None? {
        return NoTenant;
      }
      var t, s := tenant.value, store;
      if !SafeLiteral(e.commitId) || !SafeLiteral(t) || !SafeLiteral(e.sub) || !SafeLiteral(e.reason)
        || !SafeLiteral(e.source)
      {
        return Panicked;
      }
      if fails(0) {
        return StoreFailed;
      }
      s := s.(events := MergeFirst(s.events, EventOf(t, e)));
      if fails(1) {
        return StoreFailed;
      }
      if !(SafeLiteral(e.name) && SafeLiteral(JoinNamespace(e.namespace))) {
        return Panicked;
      }
      if fails(2) || fails(3) {
        return StoreFailed;
      }
      s := s.(intended := MergeSpan(s.intended, IntendedKey(t, e.sub, TableOf(e)), e.now));
      if e.decision.Approved? && e.result.Some? && e.result.value.location != "" {
        if !SafeLiteral(e.result.value.location) {
          return Panicked;
        }
        if fails(4) {
          return StoreFailed;
        }
        s := s.(snapshots := MergeSnapshots(s.snapshots, SnapKey(t, e.result.value.location), None));
        if fails(5) {
          return StoreFailed;
        }
        s := s.(actual := MergeFirst(s.actual, WriteOf(t, e)));
      }
      if fails(6) {
        return StoreFailed;
      }
      s := s.(audit := s.audit + [AuditOf(t, e)]);
      if fails(7) {
        return StoreFailed;
      }
      store := s;
      return if fails(8) then StoreFailed else Done;
    }
  }

  // ---- Runs ----

  /** A committed transaction; detection merges the bare snapshot vertex. */
  datatype Op =
    | MergeIngest(key: SnapKey, ingest: Ingest)
    | Emit(tenant: Tenant, emission: Emission)
    | MergeDetected(key: SnapKey)

  function Step(s: Store, op: Op): Store {
    match op
    case MergeIngest(key, g) => s.(snapshots := MergeSnapshots(s.snapshots, key, Some(g)))
    case Emit(t, e) => AfterEmit(s, t, e)
    case MergeDetected(key) => s.(snapshots := MergeSnapshots(s.snapshots, key, None))
  }

  /** The store after a run of transactions of any writers, in commit order. */
  function Run(ops: seq<Op>): Store {
    if ops == [] then EMPTY else Step(Run(ops[..|ops| - 1]), ops[|ops| - 1])
  }

  // ---- One snapshot per tenant and location ----

  predicate Names(op: Op, key: SnapKey) {
    match op
    case MergeIngest(k, _) => k == key
    case MergeDetected(k) => k == key
    case Emit(t, e) => Writes(e) && WriteOf(t, e).key.snapshot == key
  }

  predicate Ingests(op: Op, key: SnapKey) {
    op.MergeIngest? && op.key == key
  }

  predicate FirstIngest(ops: seq<Op>, key: SnapKey, n: nat) {
    n < |ops| && Ingests(ops[n], key) && forall j :: 0 <= j < n ==> !Ingests(ops[j], key)
  }

  predicate LastIngest(ops: seq<Op>, key: SnapKey, n: nat) {
    n < |ops| && Ingests(ops[n], key) && forall j :: n < j < |ops| ==> !Ingests(ops[j], key)
  }

  predicate SetBy(s: Snapshot, g: Ingest) {
    s.id == Some(g.id) && s.parentId == Some(g.parentId)
    && s.committedAt == Some(g.committedAt) && s.operation == Some(g.operation)
  }

  predicate NoIngest(ops: seq<Op>, key: SnapKey) {
    forall n :: 0 <= n < |ops| ==> !Ingests(ops[n], key)
  }

  /** The vertex carries what the first ingest brought and the time of the last. */
  ghost predicate Tells(ops: seq<Op>, s: Snapshot) {
    && (forall n: nat :: FirstIngest(ops, s.key, n) ==> SetBy(s, ops[n].ingest))
    && (forall n: nat :: LastIngest(ops, s.key, n) ==> s.lastSeenAt == Some(ops[n].ingest.committedAt))
    && (NoIngest(ops, s.key) ==> s == Bare(s.key))
  }

  ghost predicate OnePerKey(ss: seq<Snapshot>) {
    forall i, j :: 0 <= i < j < |ss| ==> ss[i].key != ss[j].key
  }

  ghost predicate SnapshotLaw(ops: seq<Op>, ss: seq<Snapshot>) {
    && OnePerKey(ss)
    && (forall i :: 0 <= i < |ss| ==> Tells(ops, ss[i]) && exists n :: 0 <= n < |ops| && Names(ops[n], ss[i].key))
    && (forall n, key :: 0 <= n < |ops| && Names(ops[n], key) ==> HasSnapshot(ss, key))
  }

  lemma IngestsBefore(ops: seq<Op>, op: Op, key: SnapKey, n: nat)
    ensures FirstIngest(ops + [op], key, n) && n < |ops| ==> FirstIngest(ops, key, n)
    ensures FirstIngest(ops + [op], key, n) && n == |ops| ==> NoIngest(ops, key)
    ensures LastIngest(ops + [op], key, n) && n < |ops| ==> LastIngest(ops, key, n)
    ensures LastIngest(ops + [op], key, n) && Ingests(op, key) ==> n == |ops|
    ensures LastIngest(ops + [op], key, n) && !Ingests(op, key) ==> n < |ops|
    ensures NoIngest(ops + [op], key) <==> NoIngest(ops, key) && !Ingests(op, key)
  {
    hide Ingests;
    var ops' := ops + [op];
    assert ops'[|ops|] == op && forall j :: 0 <= j < |ops| ==> ops'[j] == ops[j];
  }

  /** A later transaction that does not ingest the key leaves what the vertex tells. */
  lemma TellsStill(ops: seq<Op>, op: Op, s: Snapshot)
    requires Tells(ops, s) && !Ingests(op, s.key)
    ensures Tells(ops + [op], s)
  {
    hide FirstIngest, LastIngest, NoIngest, SetBy;
    forall n: nat {
      TellsStillAt(ops, op, s, n);
    }
    IngestsBefore(ops, op, s.key, 0);
  }

  lemma TellsStillAt(ops: seq<Op>, op: Op, s: Snapshot, n: nat)
    requires Tells(ops, s) && !Ingests(op, s.key)
    ensures FirstIngest(ops + [op], s.key, n) ==> SetBy(s, (ops + [op])[n].ingest)
    ensures LastIngest(ops + [op], s.key, n) ==> s.lastSeenAt == Some((ops + [op])[n].ingest.committedAt)
  {
    hide FirstIngest, LastIngest, NoIngest, SetBy;
    IngestsBefore(ops, op, s.key, n);
    IngestIndex(ops + [op], s.key, n);
    IngestIndex(ops, s.key, n);
  }

  lemma IngestIndex(ops: seq<Op>, key: SnapKey, n: nat)
    ensures FirstIngest(ops, key, n) || LastIngest(ops, key, n) ==> n < |ops| && Ingests(ops[n], key)
  {
  }

  lemma TellsIngested(ops: seq<Op>, op: Op, s: Snapshot)
    requires Tells(ops, s) && Ingests(op, s.key)
    ensures Tells(ops + [op], Ingested(s, op.ingest))
  {
    hide FirstIngest, LastIngest, NoIngest;
    forall n: nat {
      TellsIngestedAt(ops, op, s, n);
    }
    IngestsBefore(ops, op, s.key, 0);
  }

  lemma TellsIngestedAt(ops: seq<Op>, op: Op, s: Snapshot, n: nat)
    requires Tells(ops, s) && Ingests(op, s.key)
    ensures FirstIngest(ops + [op], s.key, n) ==> SetBy(Ingested(s, op.ingest), (ops + [op])[n].ingest)
    ensures LastIngest(ops + [op], s.key, n) ==>
      Ingested(s, op.ingest).lastSeenAt == Some((ops + [op])[n].ingest.committedAt)
  {
    hide FirstIngest, LastIngest, NoIngest;
    IngestsBefore(ops, op, s.key, n);
    IngestIndex(ops + [op], s.key, n);
    IngestIndex(ops, s.key, n);
  }

  /** What a transaction that names the key sets on its snapshot. */
  function Brought(op: Op): Option<Ingest> {
    if op.MergeIngest? then Some(op.ingest) else None
  }

  lemma TellsTouched(ops: seq<Op>, op: Op, s: Snapshot)
    requires Tells(ops, s) && Names(op, s.key)
    ensures Tells(ops + [op], Touched(s, Brought(op)))
  {
    if op.MergeIngest? {
      TellsIngested(ops, op, s);
    } else {
      TellsStill(ops, op, s);
    }
  }

  lemma StepSnapshots(s: Store, op: Op, key: SnapKey)
    requires Names(op, key)
    ensures Step(s, op).snapshots == MergeSnapshots(s.snapshots, key, Brought(op))
  {
  }

  lemma StepWithoutSnapshots(s: Store, op: Op)
    requires forall key :: !Names(op, key)
    ensures Step(s, op).snapshots == s.snapshots
  {
    if op.MergeIngest? || op.MergeDetected? {
      assert Names(op, op.key);
    } else if Writes(op.emission) {
      assert Names(op, WriteOf(op.tenant, op.emission).key.snapshot);
    }
  }

  lemma NamesIsOne(op: Op, k: SnapKey, l: SnapKey)
    requires Names(op, k) && Names(op, l)
    ensures k == l
  {
  }

  lemma MergeKeepsLaw(ops: seq<Op>, op: Op, ss: seq<Snapshot>, key: SnapKey)
    requires SnapshotLaw(ops, ss) && Names(op, key)
    ensures SnapshotLaw(ops + [op], MergeSnapshots(ss, key, Brought(op)))
  {
    hide Tells, Names, Brought;
    var ops', ss' := ops + [op], MergeSnapshots(ss, key, Brought(op));
    assert ops'[|ops|] == op && forall n :: 0 <= n < |ops| ==> ops'[n] == ops[n];
    forall i | 0 <= i < |ss'| ensures Tells(ops', ss'[i]) && exists n :: 0 <= n < |ops'| && Names(ops'[n], ss'[i].key) {
      if i < |ss| {
        var n :| 0 <= n < |ops| && Names(ops[n], ss[i].key);
        assert ss'[i].key == ss[i].key && Names(ops'[n], ss'[i].key);
        if ss[i].key == key {
          TellsTouched(ops, op, ss[i]);
        } else {
          OtherKeyTells(ops, op, ss[i], key);
        }
      } else {
        assert Names(ops'[|ops|], ss'[i].key);
        BareTells(ops, ss, key);
        TellsTouched(ops, op, Bare(key));
      }
    }
    forall n, k | 0 <= n < |ops'| && Names(ops'[n], k) ensures HasSnapshot(ss', k) {
      if n == |ops| {
        NamesIsOne(op, key, k);
        MergedIsThere(ss, key, Brought(op));
      } else {
        assert Names(ops[n], k) && HasSnapshot(ss, k);
        var i :| 0 <= i < |ss| && ss[i].key == k;
        assert ss'[i].key == k;
      }
    }
  }

  lemma MergedIsThere(ss: seq<Snapshot>, key: SnapKey, g: Option<Ingest>)
    ensures HasSnapshot(MergeSnapshots(ss, key, g), key)
  {
    var ss' := MergeSnapshots(ss, key, g);
    if HasSnapshot(ss, key) {
      var i :| 0 <= i < |ss| && ss[i].key == key;
      assert ss'[i].key == key;
    } else {
      assert ss'[|ss|].key == key;
    }
  }

  lemma OtherKeyTells(ops: seq<Op>, op: Op, s: Snapshot, key: SnapKey)
    requires Tells(ops, s) && Names(op, key) && s.key != key
    ensures Tells(ops + [op], s)
  {
    TellsStill(ops, op, s);
  }

  lemma BareTells(ops: seq<Op>, ss: seq<Snapshot>, key: SnapKey)
    requires SnapshotLaw(ops, ss) && !HasSnapshot(ss, key)
    ensures Tells(ops, Bare(key))
  {
    hide HasSnapshot, OnePerKey, FirstIngest, LastIngest;
    forall n: nat | n < |ops| ensures !Ingests(ops[n], key) {
      assert !Names(ops[n], key);
    }
    forall n: nat ensures !FirstIngest(ops, key, n) && !LastIngest(ops, key, n) {
      IngestIndex(ops, key, n);
    }
  }

  lemma QuietKeepsLaw(ops: seq<Op>, op: Op, ss: seq<Snapshot>)
    requires SnapshotLaw(ops, ss) && forall key :: !Names(op, key)
    ensures SnapshotLaw(ops + [op], ss)
  {
    hide Tells, Names, HasSnapshot;
    var ops' := ops + [op];
    assert ops'[|ops|] == op && forall n :: 0 <= n < |ops| ==> ops'[n] == ops[n];
    forall i | 0 <= i < |ss| ensures Tells(ops', ss[i]) && exists n :: 0 <= n < |ops'| && Names(ops'[n], ss[i].key) {
      var n :| 0 <= n < |ops| && Names(ops[n], ss[i].key);
      assert Names(ops'[n], ss[i].key);
      QuietTells(ops, op, ss[i]);
    }
  }

  lemma QuietTells(ops: seq<Op>, op: Op, s: Snapshot)
    requires Tells(ops, s) && !Names(op, s.key)
    ensures Tells(ops + [op], s)
  {
    TellsStill(ops, op, s);
  }

  /**
   However the three writers interleave, a tenant has one vertex for a location exactly when some
   transaction named it; its committed_at, ids and operation are those of the first ingest and
   its last_seen_at is that of the last, whatever bare merges came before, between or after.
   */
  lemma {:induction false} SnapshotsTellFirstAndLast(ops: seq<Op>)
    ensures SnapshotLaw(ops, Run(ops).snapshots)
  {
    hide Tells, Names, Step, MergeSnapshots, HasSnapshot;
    if ops != [] {
      var before, op := ops[..|ops| - 1], ops[|ops| - 1];
      SnapshotsTellFirstAndLast(before);
      assert ops == before + [op];
      if key :| Names(op, key) {
        StepSnapshots(Run(before), op, key);
        MergeKeepsLaw(before, op, Run(before).snapshots, key);
      } else {
        StepWithoutSnapshots(Run(before), op);
        QuietKeepsLaw(before, op, Run(before).snapshots);
      }
    }
  }

  // ---- Writes, events and the audit log ----

  /** Merging a log of keyed values one after the other. */
  function Firsts<K(==), V>(log: seq<Keyed<K, V>>): seq<Keyed<K, V>> {
    if log == [] then [] else MergeFirst(Firsts(log[..|log| - 1]), log[|log| - 1])
  }

  predicate KeysDistinct<K(==), V>(xs: seq<Keyed<K, V>>) {
    forall i, j :: 0 <= i < j < |xs| ==> xs[i].key != xs[j].key
  }

  ghost predicate FirstOfKey<K, V>(log: seq<Keyed<K, V>>, x: Keyed<K, V>, n: nat) {
    n < |log| && log[n] == x && forall j :: 0 <= j < n ==> log[j].key != x.key
  }

  /** One entry per key of the log, with the values of its first occurrence. */
  ghost predicate FirstsLaw<K(!new), V(!new)>(log: seq<Keyed<K, V>>, xs: seq<Keyed<K, V>>) {
    && KeysDistinct(xs)
    && (forall x :: x in xs <==> exists n: nat :: FirstOfKey(log, x, n))
    && (forall n :: 0 <= n < |log| ==> HasKey(xs, log[n].key))
    && |xs| <= |log|
    && (|xs| == |log| <==> KeysDistinct(log))
  }

  lemma FirstOfLonger<K(!new), V(!new)>(log: seq<Keyed<K, V>>, y: Keyed<K, V>, x: Keyed<K, V>, n: nat)
    ensures FirstOfKey(log, x, n) ==> FirstOfKey(log + [y], x, n)
    ensures FirstOfKey(log + [y], x, n) && n < |log| ==> FirstOfKey(log, x, n)
    ensures FirstOfKey(log + [y], x, n) && n == |log| ==> x == y && forall j :: 0 <= j < |log| ==> log[j].key != y.key
    ensures n == |log| && x == y && (forall j :: 0 <= j < |log| ==> log[j].key != y.key) ==> FirstOfKey(log + [y], x, n)
  {
    assert forall j :: 0 <= j < |log| ==> (log + [y])[j] == log[j];
  }

  lemma KeysDistinctLonger<K(!new), V(!new)>(log: seq<Keyed<K, V>>, y: Keyed<K, V>)
    ensures KeysDistinct(log + [y]) <==> KeysDistinct(log) && !HasKey(log, y.key)
  {
    var log' := log + [y];
    assert log'[|log|] == y && forall j :: 0 <= j < |log| ==> log'[j] == log[j];
  }

  lemma SameKeys<K(!new), V(!new)>(log: seq<Keyed<K, V>>, xs: seq<Keyed<K, V>>, key: K)
    requires FirstsLaw(log, xs)
    ensures HasKey(xs, key) <==> HasKey(log, key)
  {
    if HasKey(xs, key) {
      var i :| 0 <= i < |xs| && xs[i].key == key;
      assert xs[i] in xs;
      var n: nat :| FirstOfKey(log, xs[i], n);
    }
  }

  lemma FirstsLonger<K(!new), V(!new)>(log: seq<Keyed<K, V>>, xs: seq<Keyed<K, V>>, y: Keyed<K, V>)
    requires FirstsLaw(log, xs)
    ensures FirstsLaw(log + [y], MergeFirst(xs, y))
  {
    hide FirstOfKey;
    var log', xs' := log + [y], MergeFirst(xs, y);
    SameKeys(log, xs, y.key);
    KeysDistinctLonger(log, y);
    KeysDistinctLonger(xs, y);
    forall x ensures x in xs' <==> exists n: nat :: FirstOfKey(log', x, n) {
      MemberOfLonger(log, xs, y, x);
    }
    forall n | 0 <= n < |log'| ensures HasKey(xs', log'[n].key) {
      KeyOfLonger(log, xs, y, n);
    }
  }

  lemma KeyOfLonger<K(!new), V(!new)>(log: seq<Keyed<K, V>>, xs: seq<Keyed<K, V>>, y: Keyed<K, V>, n: nat)
    requires n <= |log| && forall k :: 0 <= k < |log| ==> HasKey(xs, log[k].key)
    ensures HasKey(MergeFirst(xs, y), (log + [y])[n].key)
  {
    var xs', key := MergeFirst(xs, y), (log + [y])[n].key;
    if HasKey(xs, key) {
      var i :| 0 <= i < |xs| && xs[i].key == key;
      assert xs'[i].key == key;
    } else {
      assert n == |log| && xs'[|xs|].key == key;
    }
  }

  lemma MemberOfLonger<K(!new), V(!new)>(log: seq<Keyed<K, V>>, xs: seq<Keyed<K, V>>, y: Keyed<K, V>, x: Keyed<K, V>)
    requires FirstsLaw(log, xs)
    ensures x in MergeFirst(xs, y) <==> exists n: nat :: FirstOfKey(log + [y], x, n)
  {
    hide FirstOfKey, KeysDistinct;
    SameKeys(log, xs, y.key);
    FirstOfLonger(log, y, x, |log|);
    if x in xs {
      var n: nat :| FirstOfKey(log, x, n);
      FirstOfLonger(log, y, x, n);
    }
    if n: nat :| FirstOfKey(log + [y], x, n) {
      FirstOfLonger(log, y, x, n);
      FirstIndex(log + [y], x, n);
    }
  }

  lemma FirstIndex<K(!new), V(!new)>(log: seq<Keyed<K, V>>, x: Keyed<K, V>, n: nat)
    requires FirstOfKey(log, x, n)
    ensures n < |log|
  {
  }

  lemma {:induction false} FirstsKeepFirst<K(!new), V(!new)>(log: seq<Keyed<K, V>>)
    ensures FirstsLaw(log, Firsts(log))
  {
    hide FirstsLaw, MergeFirst;
    if log == [] {
      NothingMerged(log);
    } else {
      var before, y := log[..|log| - 1], log[|log| - 1];
      FirstsKeepFirst(before);
      FirstsLonger(before, Firsts(before), y);
      assert log == before + [y];
    }
  }

  lemma NothingMerged<K(!new), V(!new)>(log: seq<Keyed<K, V>>)
    requires log == []
    ensures FirstsLaw(log, log)
  {
  }

  /** The events, writes and audit rows of a run's emissions, in order. */
  function EventLog(ops: seq<Op>): seq<Keyed<EventKey, WriteEvent>> {
    if ops == [] then []
    else
      var op := ops[|ops| - 1];
      EventLog(ops[..|ops| - 1]) + if op.Emit? then [EventOf(op.tenant, op.emission)] else []
  }

  function WriteLog(ops: seq<Op>): seq<Keyed<ActualKey, string>> {
    if ops == [] then []
    else
      var op := ops[|ops| - 1];
      WriteLog(ops[..|ops| - 1]) + if op.Emit? && Writes(op.emission) then [WriteOf(op.tenant, op.emission)] else []
  }

  /** Who tried to write which table, and when. */
  function IntentLog(ops: seq<Op>): seq<Keyed<IntendedKey, string>> {
    if ops == [] then []
    else
      var op := ops[|ops| - 1];
      IntentLog(ops[..|ops| - 1])
      + if op.Emit? then [Keyed(IntendedKey(op.tenant, op.emission.sub, TableOf(op.emission)), op.emission.now)] else []
  }

  ghost predicate LastOfKey<K, V>(log: seq<Keyed<K, V>>, x: Keyed<K, V>, n: nat) {
    n < |log| && log[n] == x && forall j :: n < j < |log| ==> log[j].key != x.key
  }

  ghost predicate Dated<K(!new)>(log: seq<Keyed<K, string>>, x: Keyed<K, Span>) {
    && (exists n: nat :: FirstOfKey(log, Keyed(x.key, x.value.firstAt), n))
    && (exists n: nat :: LastOfKey(log, Keyed(x.key, x.value.lastAt), n))
  }

  /** One edge per key of the log, dated by the first and the last attempt. */
  ghost predicate SpanLaw<K(!new)>(log: seq<Keyed<K, string>>, xs: seq<Keyed<K, Span>>) {
    && KeysDistinct(xs)
    && (forall i :: 0 <= i < |xs| ==> Dated(log, xs[i]))
    && (forall n :: 0 <= n < |log| ==> HasKey(xs, log[n].key))
  }

  lemma DatedLonger<K(!new)>(log: seq<Keyed<K, string>>, x: Keyed<K, Span>, y: Keyed<K, string>)
    requires Dated(log, x)
    ensures Dated(log + [y], if x.key == y.key then Keyed(x.key, Span(x.value.firstAt, y.value)) else x)
  {
    var n: nat :| FirstOfKey(log, Keyed(x.key, x.value.firstAt), n);
    FirstOfLonger(log, y, Keyed(x.key, x.value.firstAt), n);
    if x.key == y.key {
      assert LastOfKey(log + [y], y, |log|);
    } else {
      var m: nat :| LastOfKey(log, Keyed(x.key, x.value.lastAt), m);
      assert LastOfKey(log + [y], Keyed(x.key, x.value.lastAt), m);
    }
  }

  lemma DatedOnce<K(!new)>(log: seq<Keyed<K, string>>, y: Keyed<K, string>)
    requires !HasKey(log, y.key)
    ensures Dated(log + [y], Keyed(y.key, Span(y.value, y.value)))
  {
    FirstOfLonger(log, y, y, |log|);
    assert LastOfKey(log + [y], y, |log|);
  }

  lemma SpanLonger<K(!new)>(log: seq<Keyed<K, string>>, xs: seq<Keyed<K, Span>>, y: Keyed<K, string>)
    requires SpanLaw(log, xs)
    ensures SpanLaw(log + [y], MergeSpan(xs, y.key, y.value))
  {
    hide Dated;
    var log', xs' := log + [y], MergeSpan(xs, y.key, y.value);
    assert forall n :: 0 <= n < |log| ==> log'[n] == log[n];
    assert forall i :: 0 <= i < |xs| ==> xs'[i].key == xs[i].key;
    forall i | 0 <= i < |xs'| ensures Dated(log', xs'[i]) {
      if i < |xs| {
        DatedLonger(log, xs[i], y);
      } else {
        DatedOnce(log, y);
      }
    }
    forall n | 0 <= n < |log'| ensures HasKey(xs', log'[n].key) {
      if HasKey(xs, log'[n].key) {
        var i :| 0 <= i < |xs| && xs[i].key == log'[n].key;
        assert xs'[i].key == log'[n].key;
      } else {
        assert n == |log| && xs'[|xs|].key == y.key;
      }
    }
  }

  /** Of every principal and table there is one INTENDED_WRITE edge, dated by the first and the last attempt. */
  lemma {:induction false} IntentsAreDated(ops: seq<Op>)
    ensures SpanLaw(IntentLog(ops), Run(ops).intended)
  {
    hide SpanLaw, MergeSpan, MergeFirst, MergeSnapshots;
    if ops == [] {
      NoIntents();
    } else {
      var before, op := ops[..|ops| - 1], ops[|ops| - 1];
      IntentsAreDated(before);
      assert IntentLog(before) + [] == IntentLog(before);
      if op.Emit? {
        SpanLonger(IntentLog(before), Run(before).intended,
          Keyed(IntendedKey(op.tenant, op.emission.sub, TableOf(op.emission)), op.emission.now));
      }
    }
  }

  lemma NoIntents()
    ensures SpanLaw<IntendedKey>([], [])
  {
  }

  lemma FirstsOfMore<K(!new), V(!new)>(log: seq<Keyed<K, V>>, y: Keyed<K, V>)
    ensures Firsts(log + [y]) == MergeFirst(Firsts(log), y)
  {
    assert (log + [y])[..|log|] == log;
  }

  /** What a run leaves is its logs, merged; the audit log has a row per emission. */
  lemma {:induction false} RunMergesLogs(ops: seq<Op>)
    ensures Run(ops).events == Firsts(EventLog(ops))
    ensures Run(ops).actual == Firsts(WriteLog(ops))
    ensures |Run(ops).audit| == |EventLog(ops)|
  {
    hide MergeFirst, MergeSnapshots, MergeSpan, Firsts;
    if ops == [] {
      FirstsKeepFirst(EventLog([]));
      FirstsKeepFirst(WriteLog([]));
    } else {
      var before, op := ops[..|ops| - 1], ops[|ops| - 1];
      RunMergesLogs(before);
      assert EventLog(before) + [] == EventLog(before) && WriteLog(before) + [] == WriteLog(before);
      if op.Emit? {
        FirstsOfMore(EventLog(before), EventOf(op.tenant, op.emission));
        if Writes(op.emission) {
          FirstsOfMore(WriteLog(before), WriteOf(op.tenant, op.emission));
        }
      }
    }
  }

  /** The emissions of a run, in commit order. */
  function Emissions(ops: seq<Op>): (es: seq<Op>)
    ensures forall i :: 0 <= i < |es| ==> es[i].Emit?
  {
    if ops == [] then []
    else
      var op := ops[|ops| - 1];
      Emissions(ops[..|ops| - 1]) + if op.Emit? then [op] else []
  }

  /** The audit row, the event and the attempt that an emission leaves, field by field. */
  ghost predicate Told(
      t: Tenant, e: Emission, row: AuditRow, event: Keyed<EventKey, WriteEvent>, intent: Keyed<IntendedKey, string>)
  {
    && row == AuditRow(t, e.sub, e.namespace, e.name, e.reason, e.decision, e.source, e.bodyHash)
    && event.key == EventKey(t, e.commitId)
    && event.value.committer == e.sub && event.value.decision == e.decision && event.value.reason == e.reason
    && event.value.createdAt == e.now && event.value.source == e.source
    && event.value.snapshotId == (if e.result.Some? then Some(e.result.value.snapshotId) else None)
    && intent == Keyed(IntendedKey(t, e.sub, TableName(JoinNamespace(e.namespace), e.name)), e.now)
  }

  /** The logs tell the emissions of a run in order; above all the audit log tells each one's decision. */
  lemma {:induction false} LogsTellEmissions(ops: seq<Op>)
    ensures |Run(ops).audit| == |EventLog(ops)| == |IntentLog(ops)| == |Emissions(ops)|
    ensures forall i :: 0 <= i < |Emissions(ops)| ==>
      Told(Emissions(ops)[i].tenant, Emissions(ops)[i].emission,
        Run(ops).audit[i], EventLog(ops)[i], IntentLog(ops)[i])
  {
    hide MergeFirst, MergeSnapshots, MergeSpan;
    if ops != [] {
      LogsTellEmissions(ops[..|ops| - 1]);
    }
  }

  /** There are as many write events as audit rows exactly when no tenant drew a commit id twice. */
  lemma EventPerAuditRowIff(ops: seq<Op>)
    ensures |Run(ops).events| <= |Run(ops).audit|
    ensures |Run(ops).events| == |Run(ops).audit| <==> KeysDistinct(EventLog(ops))
  {
    hide KeysDistinct, Run, EventLog, WriteLog, Firsts;
    RunMergesLogs(ops);
    FirstsKeepFirst(EventLog(ops));
  }

  /** Transaction `n` of the run is the emission that recorded this write. */
  predicate Recorded(ops: seq<Op>, n: nat, w: Keyed<ActualKey, string>) {
    n < |ops| && ops[n].Emit? && Writes(ops[n].emission) && WriteOf(ops[n].tenant, ops[n].emission) == w
  }

  lemma {:induction false} WriteLogFrom(ops: seq<Op>, w: Keyed<ActualKey, string>) returns (n: nat)
    requires w in WriteLog(ops)
    ensures Recorded(ops, n, w)
  {
    var before, op := ops[..|ops| - 1], ops[|ops| - 1];
    if w in WriteLog(before) {
      n := WriteLogFrom(before, w);
    } else {
      n := |ops| - 1;
    }
  }

  lemma {:induction false} EmissionIsLogged(ops: seq<Op>, n: nat)
    requires n < |ops| && ops[n].Emit?
    ensures EventOf(ops[n].tenant, ops[n].emission) in EventLog(ops)
    ensures Writes(ops[n].emission) ==> WriteOf(ops[n].tenant, ops[n].emission) in WriteLog(ops)
    ensures AuditOf(ops[n].tenant, ops[n].emission) in Run(ops).audit
  {
    hide MergeFirst, MergeSnapshots, MergeSpan;
    if n < |ops| - 1 {
      EmissionIsLogged(ops[..|ops| - 1], n);
    }
  }

  lemma DistinctAreFirst<K(!new), V(!new)>(log: seq<Keyed<K, V>>, x: Keyed<K, V>)
    requires KeysDistinct(log) && x in log
    ensures x in Firsts(log)
  {
    FirstsKeepFirst(log);
    var n :| 0 <= n < |log| && log[n] == x;
    assert FirstOfKey(log, x, n);
  }

  predicate Draws(op: Op, key: EventKey) {
    op.Emit? && EventOf(op.tenant, op.emission).key == key
  }

  /** Transaction `m` is the tenant's first emission under this commit id. */
  predicate FirstDraw(ops: seq<Op>, key: EventKey, m: nat) {
    m < |ops| && Draws(ops[m], key) && forall j :: 0 <= j < m ==> !Draws(ops[j], key)
  }

  lemma {:induction false} FindFirstDraw(ops: seq<Op>, key: EventKey, n: nat) returns (m: nat)
    requires n < |ops| && Draws(ops[n], key)
    ensures m <= n && FirstDraw(ops, key, m)
  {
    if j :| 0 <= j < n && Draws(ops[j], key) {
      m := FindFirstDraw(ops, key, j);
    } else {
      m := n;
    }
  }

  lemma {:induction false} NoDrawNoEvent(ops: seq<Op>, key: EventKey)
    requires forall j :: 0 <= j < |ops| ==> !Draws(ops[j], key)
    ensures !HasKey(EventLog(ops), key)
  {
    if ops != [] {
      NoDrawNoEvent(ops[..|ops| - 1], key);
    }
  }

  /** In the log of events a first draw is the first of its key. */
  lemma {:induction false} FirstDrawIsFirst(ops: seq<Op>, key: EventKey, m: nat) returns (p: nat)
    requires FirstDraw(ops, key, m)
    ensures FirstOfKey(EventLog(ops), EventOf(ops[m].tenant, ops[m].emission), p)
  {
    var before, op := ops[..|ops| - 1], ops[|ops| - 1];
    if m == |ops| - 1 {
      NoDrawNoEvent(before, key);
      p := |EventLog(before)|;
    } else {
      p := FirstDrawIsFirst(before, key, m);
      if op.Emit? {
        FirstOfLonger(EventLog(before), EventOf(op.tenant, op.emission), EventOf(ops[m].tenant, ops[m].emission), p);
      }
    }
  }

  /** The event of an emission is in the graph exactly when the first emission under its commit id wrote the same. */
  lemma EventIsKeptIff(ops: seq<Op>, n: nat) returns (m: nat)
    requires n < |ops| && ops[n].Emit?
    ensures m <= n && FirstDraw(ops, EventOf(ops[n].tenant, ops[n].emission).key, m)
    ensures EventOf(ops[n].tenant, ops[n].emission) in Run(ops).events <==>
      EventOf(ops[n].tenant, ops[n].emission) == EventOf(ops[m].tenant, ops[m].emission)
  {
    hide Run, EventLog, WriteLog, Firsts, FirstOfKey;
    var x := EventOf(ops[n].tenant, ops[n].emission);
    m := FindFirstDraw(ops, x.key, n);
    var p := FirstDrawIsFirst(ops, x.key, m);
    RunMergesLogs(ops);
    FirstsKeepFirst(EventLog(ops));
    var first := EventOf(ops[m].tenant, ops[m].emission);
    assert first in Run(ops).events && first.key == x.key;
    if x in Run(ops).events {
      OneEventPerKey(Run(ops).events, first, x);
    }
  }

  lemma OneEventPerKey<K(!new), V(!new)>(xs: seq<Keyed<K, V>>, x: Keyed<K, V>, y: Keyed<K, V>)
    requires KeysDistinct(xs) && x in xs && y in xs && x.key == y.key
    ensures x == y
  {
    var i :| 0 <= i < |xs| && xs[i] == x;
    var j :| 0 <= j < |xs| && xs[j] == y;
    assert i == j;
  }

  /**
   Every ACTUAL_WRITE edge was recorded by an APPROVED emission of its tenant, whose audit row is
   in the log.  Its event is in the graph exactly when transaction `m`, the first under its commit
   id, wrote the same event; so always when no commit id was drawn twice.
   */
  lemma ActualWritesAreApproved(ops: seq<Op>, w: Keyed<ActualKey, string>) returns (n: nat, m: nat)
    requires w in Run(ops).actual
    ensures Recorded(ops, n, w) && FirstDraw(ops, EventOf(ops[n].tenant, ops[n].emission).key, m)
    ensures EventOf(ops[n].tenant, ops[n].emission) in Run(ops).events <==>
      EventOf(ops[n].tenant, ops[n].emission) == EventOf(ops[m].tenant, ops[m].emission)
    ensures
      var t, e := ops[n].tenant, ops[n].emission;
      && w.key == ActualKey(SnapKey(t, e.result.value.location), TableName(JoinNamespace(e.namespace), e.name))
      && w.value == e.now && e.decision == Approved
      && AuditRow(t, e.sub, e.namespace, e.name, e.reason, Approved, e.source, e.bodyHash) in Run(ops).audit
    ensures KeysDistinct(EventLog(ops)) ==> EventOf(ops[n].tenant, ops[n].emission) in Run(ops).events
  {
    hide KeysDistinct, Run, EventLog, WriteLog, Firsts;
    RunMergesLogs(ops);
    FirstsKeepFirst(WriteLog(ops));
    var p: nat :| FirstOfKey(WriteLog(ops), w, p);
    n := WriteLogFrom(ops, w);
    m := EventIsKeptIff(ops, n);
    EmissionIsLogged(ops, n);
    if KeysDistinct(EventLog(ops)) {
      DistinctAreFirst(EventLog(ops), EventOf(ops[n].tenant, ops[n].emission));
    }
  }

  /** An approved commit always leaves its edge, dated by the first emission of that write. */
  lemma ApprovedCommitsAreWritten(ops: seq<Op>, n: nat)
    requires n < |ops| && ops[n].Emit? && ops[n].emission.decision == Approved
    requires ops[n].emission.result.Some? && ops[n].emission.result.value.location != ""
    ensures
      var t, e := ops[n].tenant, ops[n].emission;
      HasKey(Run(ops).actual,
        ActualKey(SnapKey(t, e.result.value.location), TableName(JoinNamespace(e.namespace), e.name)))
    ensures forall w | w in Run(ops).actual :: exists m: nat :: FirstOfKey(WriteLog(ops), w, m)
    ensures KeysDistinct(Run(ops).actual)
  {
    hide KeysDistinct, Run, EventLog, WriteLog, Firsts, FirstOfKey;
    RunMergesLogs(ops);
    FirstsKeepFirst(WriteLog(ops));
    EmissionIsLogged(ops, n);
  }

  lemma RunOfOne(op: Op)
    ensures Run([op]) == Step(EMPTY, op)
  {
    assert [op][..0] == [];
  }

  /** A commit id drawn twice: the approved write stands beside a lone REJECTED event. */
  lemma ReusedIdHidesApproval()
    ensures
      var denied := Emission([], "t", Rejected, "sub", "jwt", "h", None, "no", "id", "1");
      var approved := Emission([], "t", Approved, "sub", "jwt", "h", Some(CommitResult(1, "loc")), "", "id", "2");
      var s := Run([Emit("a", denied), Emit("a", approved)]);
      |s.actual| == 1 && |s.events| == 1 && s.events[0].value.decision == Rejected
  {
    hide MergeSnapshots, MergeSpan;
    var denied := Emission([], "t", Rejected, "sub", "jwt", "h", None, "no", "id", "1");
    var approved := Emission([], "t", Approved, "sub", "jwt", "h", Some(CommitResult(1, "loc")), "", "id", "2");
    var ops := [Emit("a", denied), Emit("a", approved)];
    assert ops[..1] == [ops[0]];
    RunOfOne(ops[0]);
    var one := Run(ops[..1]);
    assert one.events == [EventOf("a", denied)] && one.actual == [];
    assert one.events[0].key == EventOf("a", approved).key;
  }
}
