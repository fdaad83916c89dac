/**
 Emission of detection results: one transaction guarded by a UNIQUE row per metadata location,
 and the replicas, workers and redeliveries that race for it.
 */
module Detection {
  import opened Common

  type Tenant = string
  type Location = string
  type RunId = string

  datatype Finding = Finding(column: string, tagId: string, tagName: string, tagCategory: string, matchType: string)

  /** A row of detection_runs. */
  datatype Row = Row(runId: RunId, location: Location, strategy: string, sampleSize: int, finished: bool, findings: nat)

  /** Nodes and edges of a tenant's graph that detection merges, by their keys. */
  datatype Item =
    | DetectionRun(run: RunId)
    | SnapshotNode(location: Location)
    | Column(location: Location, column: string)
    | Tag(tag: string)
    | Classification(location: Location, column: string, tag: string, run: RunId)
    | ViolationDetectedBy(location: Location, run: RunId)
    | ClassifiedAs(location: Location, column: string, tag: string)
    | DetectedBy(location: Location, column: string, tag: string, run: RunId)

  datatype TenantDb = TenantDb(rows: seq<Row>, graph: set<Item>)

  /** What one emission writes. */
  datatype Emission = Emission(
    run: RunId, location: Location, strategy: string, sampleSize: int, findings: seq<Finding>)

  ghost predicate HasLocation(rows: seq<Row>, loc: Location) {
    exists i :: 0 <= i < |rows| && rows[i].location == loc
  }

  /** An edge MERGE behind a MATCH of its two ends. */
  function WithEdge(g: set<Item>, a: Item, b: Item, e: Item): set<Item> {
    if a in g && b in g then g + {e} else g
  }

  /** The five merges of one finding. */
  function FindingItems(e: Emission, f: Finding): set<Item> {
    { Column(e.location, f.column), Tag(f.tagId), ClassifiedAs(e.location, f.column, f.tagId),
      Classification(e.location, f.column, f.tagId, e.run), DetectedBy(e.location, f.column, f.tagId, e.run) }
  }

  function Items(e: Emission, n: nat): set<Item>
    requires n <= |e.findings|
  {
    if n == 0 then {DetectionRun(e.run), SnapshotNode(e.location), ViolationDetectedBy(e.location, e.run)}
    else Items(e, n - 1) + FindingItems(e, e.findings[n - 1])
  }

  /** Each kind of item, field by field: whether the emission names one like it. */
  predicate Belongs(x: Item, e: Emission) {
    match x
    case DetectionRun(run) => run == e.run
    case SnapshotNode(location) => location == e.location
    case ViolationDetectedBy(location, run) => location == e.location && run == e.run
    case Column(location, column) => location == e.location && exists f | f in e.findings :: f.column == column
    case Tag(tag) => exists f | f in e.findings :: f.tagId == tag
    case ClassifiedAs(location, column, tag) => location == e.location && Found(e, column, tag)
    case Classification(location, column, tag, run) => location == e.location && run == e.run && Found(e, column, tag)
    case DetectedBy(location, column, tag, run) => location == e.location && run == e.run && Found(e, column, tag)
  }

  /** Some finding tags the column so. */
  predicate Found(e: Emission, column: string, tag: string) {
    exists f | f in e.findings :: f.column == column && f.tagId == tag
  }

  /** What an emission writes is all that belongs to it. */
  lemma ItemsBelong(e: Emission, x: Item)
    ensures x in Items(e, |e.findings|) <==> Belongs(x, e)
  {
    hide Items, Belongs, FindingItems;
    ItemsAre(e, |e.findings|, x);
    BelongsByFindings(e, x);
    if k :| 0 <= k < |e.findings| && x in FindingItems(e, e.findings[k]) {
      assert e.findings[k] in e.findings;
    }
    if f :| f in e.findings && x in FindingItems(e, f) {
      var k :| 0 <= k < |e.findings| && e.findings[k] == f;
    }
  }

  lemma BelongsByFindings(e: Emission, x: Item)
    ensures Belongs(x, e) <==>
      x in {DetectionRun(e.run), SnapshotNode(e.location), ViolationDetectedBy(e.location, e.run)}
      || exists f :: f in e.findings && x in FindingItems(e, f)
  {
  }

  lemma {:induction false} ItemsAre(e: Emission, n: nat, x: Item)
    requires n <= |e.findings|
    ensures x in Items(e, n) <==>
      x in {DetectionRun(e.run), SnapshotNode(e.location), ViolationDetectedBy(e.location, e.run)}
      || exists k :: 0 <= k < n && x in FindingItems(e, e.findings[k])
  {
    hide FindingItems;
    if n > 0 {
      ItemsAre(e, n - 1, x);
    }
  }

  function RowOf(e: Emission): Row {
    Row(e.run, e.location, e.strategy, e.sampleSize, true, |e.findings|)
  }

  /** A committed emission. */
  function AfterEmit(d: TenantDb, e: Emission): TenantDb {
    TenantDb(d.rows + [RowOf(e)], d.graph + Items(e, |e.findings|))
  }

  /** The emission took the free row and wrote everything. */
  ghost predicate WrittenAll(d: TenantDb, d': TenantDb, e: Emission) {
    e.strategy == "regex" && !HasLocation(d.rows, e.location) && d' == AfterEmit(d, e)
  }

  predicate SafeFinding(f: Finding) {
    && SafeLiteral(f.column) && SafeLiteral(f.tagId) && SafeLiteral(f.tagName)
    && SafeLiteral(f.tagCategory) && SafeLiteral(f.matchType)
  }

  predicate Acceptable(e: Emission) {
    && e.location != "" && SafeLiteral(e.location) && SafeLiteral(e.strategy)
    && forall f | f in e.findings :: SafeFinding(f)
  }

  /** An empty strategy means the regex scan. */
  function Defaulted(e: Emission): Emission {
    if e.strategy == "" then e.(strategy := "regex") else e
  }

  lemma DefaultIsSafe()
    ensures SafeLiteral("") && SafeLiteral("regex")
  {
  }

  /** The row and the graph of a committed emission, spelled out. */
  ghost predicate Spelled(d: TenantDb, d': TenantDb, input: Emission) {
    && d'.rows == d.rows + [Row(input.run, input.location, "regex", input.sampleSize, true, |input.findings|)]
    && forall x :: x in d'.graph <==> x in d.graph || Belongs(x, input)
  }

  lemma WrittenBelongs(d: TenantDb, input: Emission)
    requires Defaulted(input).strategy == "regex"
    ensures Spelled(d, AfterEmit(d, Defaulted(input)), input)
  {
    hide Items, Belongs;
    var e := Defaulted(input);
    forall x
      ensures x in AfterEmit(d, e).graph <==> x in d.graph || Belongs(x, input)
    {
      ItemsBelong(e, x);
      SameBelongings(input, e, x);
    }
  }

  lemma SameBelongings(input: Emission, e: Emission, x: Item)
    requires e == Defaulted(input)
    ensures Belongs(x, e) <==> Belongs(x, input)
  {
  }

  /** Valid input, the one strategy the table admits, and a database that does not give up. */
  ghost predicate WouldSucceed(input: Emission, fails: nat -> bool) {
    && Acceptable(Defaulted(input)) && Defaulted(input).strategy == "regex"
    && forall n :: 0 <= n <= |input.findings| + 4 ==> !fails(n)
  }

  datatype Result = Emitted(run: RunId) | AlreadyEmitted | Invalid | StoreFailure(run: RunId)

  class Database {
    var d: TenantDb

    constructor ()
      ensures d == TenantDb([], {})
    {
      d := TenantDb([], {});
    }

    /** The merges of one finding, in the transaction's copy of the graph. */
    static method MergeFinding(g: set<Item>, e: Emission, f: Finding) returns (g': set<Item>)
      requires DetectionRun(e.run) in g
      ensures g' == g + FindingItems(e, f)
      ensures g' == g
        + {Column(e.location, f.column), Tag(f.tagId)} // nodes
        + {Classification(e.location, f.column, f.tagId, e.run)}
        + {ClassifiedAs(e.location, f.column, f.tagId), DetectedBy(e.location, f.column, f.tagId, e.run)} // edges
    {
      var column, tag := Column(e.location, f.column), Tag(f.tagId);
      var classification := Classification(e.location, f.column, f.tagId, e.run);
      g' := g + {column};
      g' := g' + {tag};
      g' := WithEdge(g', column, tag, ClassifiedAs(e.location, f.column, f.tagId));
      g' := g' + {classification};
      g' := WithEdge(g', classification, DetectionRun(e.run), DetectedBy(e.location, f.column, f.tagId, e.run));
    }

    /**
     One transaction.  `fails(n)` tells whether the database gives up at step n: 0 is the
     insert, 1 the merges of the run, 2 + i those of finding i, then the update, the commit, and
     the release of the connection, when everything is written and the caller sees an error.
     The table's CHECK admits no strategy but "regex".
     */
    method EmitDetectionResults(input: Emission, fails: nat -> bool) returns (r: Result)
      modifies this
      ensures r.Invalid? <==> !Acceptable(Defaulted(input))
      ensures !r.Invalid? <==>
        && input.location != "" && SafeLiteral(input.location) && SafeLiteral(input.strategy)
        && forall f | f in input.findings ::
             SafeLiteral(f.column) && SafeLiteral(f.tagId) && SafeLiteral(f.tagName)
             && SafeLiteral(f.tagCategory) && SafeLiteral(f.matchType)
      ensures r.AlreadyEmitted? ==> HasLocation(old(d).rows, input.location)
      ensures r.Emitted? ==> r.run == input.run && WrittenAll(old(d), d, Defaulted(input))
      ensures !r.Emitted? && !(r.StoreFailure? && fails(|input.findings| + 4)) ==> d == old(d)
      ensures r.StoreFailure? ==> r.run == input.run && (d == old(d) || WrittenAll(old(d), d, Defaulted(input)))
      ensures WouldSucceed(input, fails) ==>
        !r.StoreFailure? && (r.AlreadyEmitted? <==> HasLocation(old(d).rows, input.location))
      // A written run has its row with the number of its findings, and everything that belongs to it.
      ensures r.Emitted? || d != old(d) ==> Spelled(old(d), d, input)
    {
      hide Spelled, Belongs, SafeLiteral;
      DefaultIsSafe();
      var e := Defaulted(input);
      if !Acceptable(e) {
        return Invalid;
      }
      if fails(0) || e.strategy != "regex" {
        return StoreFailure(e.run);
      }
      var conflict := false;
      for i := 0 to |d.rows|
        invariant d == old(d)
        invariant conflict <==> exists j :: 0 <= j < i && d.rows[j].location == e.location
      {
        if d.rows[i].location == e.location {
          conflict := true;
        }
      }
      if conflict {
        return if fails(1) then StoreFailure(e.run) else AlreadyEmitted;
      }
      var rows := d.rows + [Row(e.run, e.location, e.strategy, e.sampleSize, false, 0)];
      if fails(1) {
        return StoreFailure(e.run);
      }
      var g := d.graph + {DetectionRun(e.run)};
      g := g + {SnapshotNode(e.location)};
      g := WithEdge(g, SnapshotNode(e.location), DetectionRun(e.run), ViolationDetectedBy(e.location, e.run));
      for i := 0 to |e.findings|
        invariant d == old(d)
        invariant DetectionRun(e.run) in g && g == d.graph + Items(e, i)
      {
        if fails(2 + i) {
          return StoreFailure(e.run);
        }
        g := MergeFinding(g, e, e.findings[i]);
      }
      if fails(|e.findings| + 2) {
        return StoreFailure(e.run);
      }
      rows := rows[|d.rows| := rows[|d.rows|].(finished := true, findings := |e.findings|)];
      assert rows == d.rows + [RowOf(e)];
      if fails(|e.findings| + 3) {
        return StoreFailure(e.run);
      }
      d := TenantDb(rows, g);
      WrittenBelongs(old(d), input);
      if fails(|e.findings| + 4) {
        return StoreFailure(e.run);
      }
      return Emitted(e.run);
    }
  }

  // ---- The dispatch pool ----

  /** The mark of a scan that could not load its table. */
  const SKIPPED_STRATEGY := "regex_skipped_no_table_ref"

  /** What the scanner asks for; without a table name there is nothing to load. */
  function ScanStrategy(h: Hit, loaded: bool): string {
    if h.table != "" && loaded then "regex" else SKIPPED_STRATEGY
  }

  /** How long a replica remembers a location, in seconds. */
  const SEEN_TTL: nat := 86_400

  type Seen = map<Location, int>

  /** What the eviction at `now` leaves. */
  function Remembered(seen: Seen, now: int): Seen {
    map l | l in seen && seen[l] >= now - SEEN_TTL :: seen[l]
  }

  class Pool {
    var seen: Seen

    constructor ()
      ensures seen == map[]
    {
      seen := map[];
    }

    /** LoadOrStore: the first hit for a location is scanned, whoever it is for. */
    method ProcessHit(h: Hit, now: int) returns (scan: bool)
      modifies this
      ensures scan <==> h.location != "" && h.location !in old(seen)
      ensures seen == if scan then old(seen)[h.location := now] else old(seen)
    {
      if h.location == "" || h.location in seen {
        return false;
      }
      seen := seen[h.location := now];
      return true;
    }

    method EvictSeen(now: int) returns (evicted: nat)
      modifies this
      ensures seen == Remembered(old(seen), now)
      ensures forall l :: l in seen <==> l in old(seen) && now - old(seen)[l] <= 24 * 60 * 60
      ensures forall l :: l in seen ==> seen[l] == old(seen)[l]
      ensures evicted == |old(seen).Keys - seen.Keys|
    {
      evicted := 0;
      ghost var gone: set<Location> := {};
      var rest := seen.Keys;
      while rest != {}
        invariant rest <= old(seen).Keys && gone <= old(seen).Keys - rest
        invariant seen == old(seen) - gone && evicted == |gone|
        invariant forall l :: l in old(seen).Keys - rest ==> (l in gone <==> old(seen)[l] < now - SEEN_TTL)
        decreases rest
      {
        var l :| l in rest;
        rest := rest - {l};
        if seen[l] < now - SEEN_TTL {
          seen := seen - {l};
          gone := gone + {l};
          evicted := evicted + 1;
        }
      }
      assert old(seen).Keys - seen.Keys == gone;
    }
  }
}

/** Replicas, workers, redeliveries and failed transactions racing for the UNIQUE row. */
module DetectionRaces {
  import opened Common
  import opened Detection

  datatype Worker =
    | Idle
    | Scanning(hit: Hit)
    | InTx(hit: Hit, emission: Emission)

  /** A scan began on a replica. */
  datatype Start = Start(replica: nat, location: Location, at: int)

  /**
   `home[w]` is the replica of worker w.  `attempts` are the run ids drawn so far; `committed`
   remembers the tenant and the emission of each run that went through.
   */
  datatype Sys = Sys(
    dbs: map<Tenant, TenantDb>, replicas: seq<Seen>, workers: seq<Worker>, home: seq<nat>, now: int,
    attempts: set<RunId>, committed: map<RunId, (Tenant, Emission)>, starts: seq<Start>)

  function DbOf(s: Sys, t: Tenant): TenantDb {
    if t in s.dbs then s.dbs[t] else TenantDb([], {})
  }

  ghost predicate WellFormed(s: Sys) {
    && |s.home| == |s.workers|
    && forall w :: 0 <= w < |s.home| ==> s.home[w] < |s.replicas|
  }

  datatype Action =
    | Deliver(worker: nat, hit: Hit)
    | ScanFails(failing: nat)
    | Insert(inserter: nat, loaded: bool, emission: Emission)
    | Rollback(loser: nat)
    | Commit(winner: nat)
    | EvictSeen(replica: nat)
    | Tick(to: int)

  /** An open transaction has inserted this tenant's row for the location. */
  ghost predicate Claimed(s: Sys, t: Tenant, l: Location) {
    exists w :: 0 <= w < |s.workers| && Claims(s.workers[w], t, l)
  }

  predicate Claims(w: Worker, t: Tenant, l: Location) {
    w.InTx? && w.hit.tenant == t && w.emission.location == l
  }

  /** The CHECK of the table, which comes before its UNIQUE. */
  predicate Admitted(e: Emission) {
    e.strategy == "regex"
  }

  function Become(s: Sys, i: nat, w: Worker): Sys
    requires i < |s.workers|
  {
    s.(workers := s.workers[i := w])
  }

  ghost predicate Acts(s: Sys, a: Action, s': Sys)
    requires WellFormed(s)
  {
    match a
    case Deliver(i, h) =>
      && i < |s.workers| && s.workers[i] == Idle
      && var r := s.home[i];
      s' == if h.location == "" || h.location in s.replicas[r] then s
            else Become(s, i, Scanning(h)).(
              replicas := s.replicas[r := s.replicas[r][h.location := s.now]],
              starts := s.starts + [Start(r, h.location, s.now)])
    case ScanFails(i) =>
      i < |s.workers| && s.workers[i].Scanning? && s' == Become(s, i, Idle)
    case Insert(i, loaded, e) =>
      && i < |s.workers| && s.workers[i].Scanning?
      && e.location == s.workers[i].hit.location && e.run !in s.attempts && Acceptable(e)
      && e.strategy == ScanStrategy(s.workers[i].hit, loaded)
      && var t := s.workers[i].hit.tenant;
      && (Admitted(e) ==> !Claimed(s, t, e.location))
      && s' == Become(s, i,
                 if !Admitted(e) || HasLocation(DbOf(s, t).rows, e.location) then Idle else InTx(s.workers[i].hit, e))
                 .(attempts := s.attempts + {e.run})
    case Rollback(i) =>
      i < |s.workers| && s.workers[i].InTx? && s' == Become(s, i, Idle)
    case Commit(i) =>
      && i < |s.workers| && s.workers[i].InTx?
      && var t, e := s.workers[i].hit.tenant, s.workers[i].emission;
      s' == Become(s, i, Idle).(
        dbs := s.dbs[t := AfterEmit(DbOf(s, t), e)],
        committed := s.committed[e.run := (t, e)])
    case EvictSeen(r) =>
      r < |s.replicas| && s' == s.(replicas := s.replicas[r := Remembered(s.replicas[r], s.now)])
    case Tick(to) =>
      s.now <= to && s' == s.(now := to)
  }

  // ---- Invariants ----

  ghost predicate OneRowPerLocation(rows: seq<Row>) {
    forall i, j :: 0 <= i < j < |rows| ==> rows[i].location != rows[j].location
  }

  /** Runs an item of the graph belongs to. */
  function RunOf(x: Item): Option<RunId> {
    match x
    case DetectionRun(r) => Some(r)
    case Classification(_, _, _, r) => Some(r)
    case ViolationDetectedBy(_, r) => Some(r)
    case DetectedBy(_, _, _, r) => Some(r)
    case _ => None
  }

  /** The items in `g` that name `run` are exactly those its emission writes. */
  ghost predicate GraphShows(g: set<Item>, run: RunId, e: Emission) {
    forall x :: RunOf(x) == Some(run) ==> (x in g <==> x in Items(e, |e.findings|))
  }

  /** Two open transactions that want one row, or write under one run id. */
  predicate Rivals(v: Worker, w: Worker) {
    v.InTx? && w.InTx? &&
    (v.emission.run == w.emission.run ||
     (v.hit.tenant == w.hit.tenant && v.emission.location == w.emission.location))
  }

  /** A transaction in flight: its row is not there yet and its run id is its own. */
  ghost predicate Entitled(s: Sys, w: Worker) {
    w.InTx? ==>
      && !HasLocation(DbOf(s, w.hit.tenant).rows, w.emission.location)
      && w.emission.run in s.attempts && w.emission.run !in s.committed
  }

  ghost predicate ClaimsExclusive(s: Sys) {
    && (forall v, w :: 0 <= v < |s.workers| && 0 <= w < |s.workers| && v != w ==> !Rivals(s.workers[v], s.workers[w]))
    && (forall w :: 0 <= w < |s.workers| ==> Entitled(s, s.workers[w]))
  }

  ghost predicate RowsUnique(s: Sys) {
    forall t :: OneRowPerLocation(DbOf(s, t).rows)
  }

  /** Some committed emission of the tenant writes this item. */
  ghost predicate ComesFrom(committed: map<RunId, (Tenant, Emission)>, t: Tenant, x: Item) {
    exists run :: run in committed && Writes(committed[run], t, x)
  }

  predicate Writes(c: (Tenant, Emission), t: Tenant, x: Item) {
    c.0 == t && x in Items(c.1, |c.1.findings|)
  }

  /** Tenant `t` holds nothing but what was committed for it. */
  ghost predicate TenantShows(s: Sys, t: Tenant) {
    && (forall x :: x in DbOf(s, t).graph ==> ComesFrom(s.committed, t, x))
    && (forall i :: 0 <= i < |DbOf(s, t).rows| ==>
      var row := DbOf(s, t).rows[i];
      row.runId in s.committed && s.committed[row.runId].0 == t && row == RowOf(s.committed[row.runId].1))
    && (forall x :: x in DbOf(s, t).graph && RunOf(x).Some? ==>
      RunOf(x).value in s.committed && s.committed[RunOf(x).value].0 == t)
  }

  /** A committed run has its row and all its items. */
  ghost predicate RunShows(s: Sys, run: RunId)
    requires run in s.committed
  {
    var (t, e) := s.committed[run];
    && e.run == run && run in s.attempts && GraphShows(DbOf(s, t).graph, run, e)
    && RowOf(e) in DbOf(s, t).rows && Items(e, |e.findings|) <= DbOf(s, t).graph
  }

  ghost predicate Recorded(s: Sys) {
    && (forall t :: TenantShows(s, t))
    && (forall run :: run in s.committed ==> RunShows(s, run))
  }

  /** What a replica remembers of a scan it began. */
  ghost predicate StartRemembered(s: Sys, x: Start) {
    && x.replica < |s.replicas| && x.at <= s.now
    && if x.location in s.replicas[x.replica] then x.at <= s.replicas[x.replica][x.location] <= s.now
       else s.now - x.at > SEEN_TTL
  }

  ghost predicate StartsRemembered(s: Sys) {
    forall n :: 0 <= n < |s.starts| ==> StartRemembered(s, s.starts[n])
  }

  predicate SamePlace(x: Start, y: Start) {
    x.replica == y.replica && x.location == y.location
  }

  /** Two scans of one location on one replica begin more than the memory's length apart. */
  ghost predicate StartsApart(starts: seq<Start>) {
    forall m, n :: 0 <= m < n < |starts| && SamePlace(starts[m], starts[n]) ==> starts[n].at - starts[m].at > SEEN_TTL
  }

  ghost predicate Inv(s: Sys) {
    && WellFormed(s) && RowsUnique(s) && ClaimsExclusive(s) && Recorded(s)
    && StartsRemembered(s) && StartsApart(s.starts)
  }

  // ---- Emissions and their items ----

  /** Every run an emission's items name is its own. */
  lemma {:induction false} ItemsNameTheirRun(e: Emission, n: nat, x: Item)
    requires n <= |e.findings| && x in Items(e, n) && RunOf(x).Some?
    ensures RunOf(x).value == e.run
  {
    if n > 0 && x !in FindingItems(e, e.findings[n - 1]) {
      ItemsNameTheirRun(e, n - 1, x);
    }
  }

  lemma {:induction false} ClassificationsOf(e: Emission, n: nat, l: Location, c: string, t: string)
    requires n <= |e.findings|
    ensures Classification(l, c, t, e.run) in Items(e, n) <==>
      l == e.location && exists i :: 0 <= i < n && e.findings[i].column == c && e.findings[i].tagId == t
  {
    if n > 0 {
      ClassificationsOf(e, n - 1, l, c, t);
    }
  }

  /** Column and tag of each finding. */
  function Keys(fs: seq<Finding>): set<(string, string)> {
    set i | 0 <= i < |fs| :: (fs[i].column, fs[i].tagId)
  }

  predicate NoneRepeats(fs: seq<Finding>) {
    forall i, j :: 0 <= i < j < |fs| ==> fs[i].column != fs[j].column || fs[i].tagId != fs[j].tagId
  }

  /** Merging folds findings with one column and tag: as many keys as findings iff none repeats. */
  lemma {:induction false} AsManyKeysIffDistinct(fs: seq<Finding>)
    ensures |Keys(fs)| <= |fs|
    ensures |Keys(fs)| == |fs| <==> NoneRepeats(fs)
    decreases |fs|
  {
    if fs != [] {
      var n := |fs| - 1;
      var init, k := fs[..n], (fs[n].column, fs[n].tagId);
      AsManyKeysIffDistinct(init);
      KeysOneMore(fs);
      hide Keys, NoneRepeats;
      assert k in Keys(init) ==> Keys(init) + {k} == Keys(init);
    }
  }

  lemma LastKeyIsNew(fs: seq<Finding>)
    requires fs != []
    ensures var n := |fs| - 1;
      NoneRepeats(fs) <==> NoneRepeats(fs[..n]) && (fs[n].column, fs[n].tagId) !in Keys(fs[..n])
  {
    var n := |fs| - 1;
    var k := (fs[n].column, fs[n].tagId);
    if NoneRepeats(fs[..n]) && k !in Keys(fs[..n]) {
      forall i, j | 0 <= i < j < |fs|
        ensures fs[i].column != fs[j].column || fs[i].tagId != fs[j].tagId
      {
        assert fs[..n][i] == fs[i];
        if j < n {
          assert fs[..n][j] == fs[j];
        } else {
          assert (fs[..n][i].column, fs[..n][i].tagId) in Keys(fs[..n]);
        }
      }
    }
    if NoneRepeats(fs) {
      forall i | 0 <= i < n
        ensures (fs[..n][i].column, fs[..n][i].tagId) != k
      {
        assert fs[..n][i] == fs[i];
      }
    }
  }

  lemma KeysOneMore(fs: seq<Finding>)
    requires fs != []
    ensures var n := |fs| - 1; Keys(fs) == Keys(fs[..n]) + {(fs[n].column, fs[n].tagId)}
    ensures var n := |fs| - 1;
      NoneRepeats(fs) <==> NoneRepeats(fs[..n]) && (fs[n].column, fs[n].tagId) !in Keys(fs[..n])
  {
    var n := |fs| - 1;
    LastKeyIsNew(fs);
    var a, b := Keys(fs), Keys(fs[..n]) + {(fs[n].column, fs[n].tagId)};
    forall k
      ensures k in a <==> k in b
    {
      if k in a {
        var i :| 0 <= i < |fs| && (fs[i].column, fs[i].tagId) == k;
        assert i < n ==> fs[..n][i] == fs[i];
      }
      if k in Keys(fs[..n]) {
        var i :| 0 <= i < n && (fs[..n][i].column, fs[..n][i].tagId) == k;
        assert fs[i] == fs[..n][i];
      }
    }
  }

  // ---- Every action keeps the invariant ----

  lemma SameStoreKeepsRecorded(s: Sys, s': Sys)
    requires RowsUnique(s) && Recorded(s)
    requires s'.dbs == s.dbs && s'.committed == s.committed && s.attempts <= s'.attempts
    ensures RowsUnique(s') && Recorded(s')
  {
    hide GraphShows, RowOf, RunOf, OneRowPerLocation, ComesFrom, Items;
    assert forall t :: DbOf(s', t) == DbOf(s, t);
    forall t
      ensures OneRowPerLocation(DbOf(s', t).rows) && TenantShows(s', t)
    {
      assert OneRowPerLocation(DbOf(s, t).rows) && TenantShows(s, t);
    }
    forall run | run in s'.committed
      ensures RunShows(s', run)
    {
      assert RunShows(s, run);
    }
  }

  lemma SameStoreKeepsEntitled(s: Sys, s': Sys, w: Worker)
    requires Entitled(s, w)
    requires s'.dbs == s.dbs && s'.committed == s.committed && s.attempts <= s'.attempts
    ensures Entitled(s', w)
  {
    hide HasLocation;
  }

  lemma SameStartsKeepRemembered(s: Sys, s': Sys)
    requires StartsRemembered(s) && s'.starts == s.starts && s'.replicas == s.replicas && s'.now == s.now
    ensures StartsRemembered(s')
  {
    forall n | 0 <= n < |s'.starts|
      ensures StartRemembered(s', s'.starts[n])
    {
      assert StartRemembered(s, s.starts[n]);
    }
  }

  lemma ReplaceWorker(s: Sys, s': Sys, i: nat)
    requires ClaimsExclusive(s) && i < |s.workers| == |s'.workers| && s'.workers == s.workers[i := s'.workers[i]]
    requires s'.dbs == s.dbs && s'.committed == s.committed && s.attempts <= s'.attempts
    requires Entitled(s', s'.workers[i])
    requires forall w :: 0 <= w < |s.workers| && w != i ==>
      !Rivals(s'.workers[i], s.workers[w]) && !Rivals(s.workers[w], s'.workers[i])
    ensures ClaimsExclusive(s')
  {
    hide Entitled, Rivals;
    forall w | 0 <= w < |s'.workers|
      ensures Entitled(s', s'.workers[w])
    {
      if w != i {
        SameStoreKeepsEntitled(s, s', s.workers[w]);
      }
    }
    forall v, w | 0 <= v < |s'.workers| && 0 <= w < |s'.workers| && v != w
      ensures !Rivals(s'.workers[v], s'.workers[w])
    {
      if v != i && w != i {
        assert s'.workers[v] == s.workers[v] && s'.workers[w] == s.workers[w];
      }
    }
  }

  lemma NewStartIsApart(s: Sys, x: Start)
    requires StartsRemembered(s) && StartsApart(s.starts)
    requires x.replica < |s.replicas| && x.location !in s.replicas[x.replica] && x.at == s.now
    ensures StartsApart(s.starts + [x])
  {
    var all := s.starts + [x];
    forall m, n | 0 <= m < n < |all| && SamePlace(all[m], all[n])
      ensures all[n].at - all[m].at > SEEN_TTL
    {
      assert StartRemembered(s, s.starts[m]);
      if n < |s.starts| {
        assert SamePlace(s.starts[m], s.starts[n]);
      }
    }
  }

  lemma DeliverKeepsInv(s: Sys, a: Action, s': Sys)
    requires Inv(s) && a.Deliver? && Acts(s, a, s')
    ensures Inv(s')
  {
    hide Recorded, RowsUnique, ClaimsExclusive, StartsApart;
    if s' != s {
      SameStoreKeepsRecorded(s, s');
      ReplaceWorker(s, s', a.worker);
      NewStartIsApart(s, Start(s.home[a.worker], a.hit.location, s.now));
      forall n | 0 <= n < |s'.starts|
        ensures StartRemembered(s', s'.starts[n])
      {
        assert n < |s.starts| ==> StartRemembered(s, s.starts[n]);
      }
    }
  }

  lemma EvictKeepsInv(s: Sys, a: Action, s': Sys)
    requires Inv(s) && (a.EvictSeen? || a.Tick?) && Acts(s, a, s')
    ensures Inv(s')
  {
    hide Recorded, RowsUnique, StartsApart, Rivals, Entitled;
    SameStoreKeepsRecorded(s, s');
    forall w | 0 <= w < |s'.workers|
      ensures Entitled(s', s'.workers[w])
    {
      SameStoreKeepsEntitled(s, s', s.workers[w]);
    }
    forall n | 0 <= n < |s'.starts|
      ensures StartRemembered(s', s'.starts[n])
    {
      assert StartRemembered(s, s.starts[n]);
    }
  }

  lemma RetreatKeepsInv(s: Sys, a: Action, s': Sys)
    requires Inv(s) && (a.ScanFails? || a.Rollback?) && Acts(s, a, s')
    ensures Inv(s')
  {
    hide Recorded, RowsUnique, ClaimsExclusive, StartsApart, StartsRemembered;
    SameStoreKeepsRecorded(s, s');
    SameStartsKeepRemembered(s, s');
    ReplaceWorker(s, s', if a.ScanFails? then a.failing else a.loser);
  }

  lemma CommittedAreAttempts(s: Sys)
    requires Recorded(s)
    ensures forall run :: run in s.committed ==> run in s.attempts
  {
    forall run | run in s.committed
      ensures run in s.attempts
    {
      assert RunShows(s, run);
    }
  }

  lemma InsertKeepsInv(s: Sys, a: Action, s': Sys)
    requires Inv(s) && a.Insert? && Acts(s, a, s')
    ensures Inv(s')
  {
    hide RowsUnique, StartsApart, StartsRemembered, HasLocation, GraphShows, TenantShows, Acceptable, ScanStrategy;
    SameStoreKeepsRecorded(s, s');
    SameStartsKeepRemembered(s, s');
    var i := a.inserter;
    CommittedAreAttempts(s);
    forall w | 0 <= w < |s.workers| && w != i
      ensures !Rivals(s'.workers[i], s.workers[w]) && !Rivals(s.workers[w], s'.workers[i])
    {
      assert Entitled(s, s.workers[w]);
      if Admitted(a.emission) {
        assert !Claims(s.workers[w], s.workers[i].hit.tenant, a.emission.location);
      }
    }
    ReplaceWorker(s, s', i);
  }

  // ---- Commit ----

  lemma CommitKeepsTenants(s: Sys, s': Sys, i: nat, t: Tenant)
    requires Inv(s) && Acts(s, Commit(i), s')
    ensures TenantShows(s', t) && OneRowPerLocation(DbOf(s', t).rows)
  {
    hide GraphShows, Items, ComesFrom;
    var u, e := s.workers[i].hit.tenant, s.workers[i].emission;
    assert TenantShows(s, t) && OneRowPerLocation(DbOf(s, t).rows) && Entitled(s, s.workers[i]);
    forall x | x in DbOf(s', t).graph
      ensures ComesFrom(s'.committed, t, x)
    {
      if x in DbOf(s, t).graph {
        StillComesFrom(s.committed, e.run, (u, e), t, x);
      } else {
        WrittenComesFrom(s.committed, e.run, (u, e), x);
      }
    }
    if t == u {
      forall x | x in DbOf(s', t).graph && RunOf(x).Some?
        ensures RunOf(x).value in s'.committed && s'.committed[RunOf(x).value].0 == t
      {
        if x !in DbOf(s, t).graph {
          ItemsNameTheirRun(e, |e.findings|, x);
        }
      }
    }
  }

  lemma StillComesFrom(committed: map<RunId, (Tenant, Emission)>, run: RunId, c: (Tenant, Emission), t: Tenant, x: Item)
    requires ComesFrom(committed, t, x) && run !in committed
    ensures ComesFrom(committed[run := c], t, x)
  {
    hide Writes;
    var r :| r in committed && Writes(committed[r], t, x);
    assert r in committed[run := c];
  }

  lemma WrittenComesFrom(committed: map<RunId, (Tenant, Emission)>, run: RunId, c: (Tenant, Emission), x: Item)
    requires x in Items(c.1, |c.1.findings|)
    ensures ComesFrom(committed[run := c], c.0, x)
  {
    assert Writes(committed[run := c][run], c.0, x);
  }

  lemma CommitKeepsRuns(s: Sys, s': Sys, i: nat, run: RunId)
    requires Inv(s) && Acts(s, Commit(i), s') && run in s'.committed
    ensures RunShows(s', run)
  {
    hide Items, OneRowPerLocation, HasLocation;
    var u, e := s.workers[i].hit.tenant, s.workers[i].emission;
    assert Entitled(s, s.workers[i]);
    assert TenantShows(s, u);
    var (t, d) := s'.committed[run];
    if run != e.run {
      assert RunShows(s, run);
    }
    forall x | RunOf(x) == Some(run)
      ensures x in DbOf(s', t).graph <==> x in Items(d, |d.findings|)
    {
      if x in Items(e, |e.findings|) {
        ItemsNameTheirRun(e, |e.findings|, x);
      }
    }
  }

  lemma CommitKeepsClaims(s: Sys, s': Sys, i: nat)
    requires Inv(s) && Acts(s, Commit(i), s')
    ensures ClaimsExclusive(s')
  {
    hide Items, Recorded;
    forall w | 0 <= w < |s'.workers|
      ensures Entitled(s', s'.workers[w])
    {
      assert Entitled(s, s.workers[w]);
      assert w != i ==> !Rivals(s.workers[w], s.workers[i]);
    }
    forall v, w | 0 <= v < |s'.workers| && 0 <= w < |s'.workers| && v != w
      ensures !Rivals(s'.workers[v], s'.workers[w])
    {
      assert !Rivals(s.workers[v], s.workers[w]);
    }
  }

  lemma CommitKeepsInv(s: Sys, s': Sys, i: nat)
    requires Inv(s) && Acts(s, Commit(i), s')
    ensures Inv(s')
  {
    hide TenantShows, OneRowPerLocation, RunShows, ClaimsExclusive, AfterEmit, StartRemembered, StartsApart;
    CommitKeepsClaims(s, s', i);
    forall t
      ensures TenantShows(s', t) && OneRowPerLocation(DbOf(s', t).rows)
    {
      CommitKeepsTenants(s, s', i, t);
    }
    forall run | run in s'.committed
      ensures RunShows(s', run)
    {
      CommitKeepsRuns(s, s', i, run);
    }
    SameStartsKeepRemembered(s, s');
  }

  lemma ActionKeepsInv(s: Sys, a: Action, s': Sys)
    requires Inv(s) && Acts(s, a, s')
    ensures Inv(s')
  {
    hide Inv, Acts;
    match a
    case Deliver(_, _) => DeliverKeepsInv(s, a, s');
    case ScanFails(_) => RetreatKeepsInv(s, a, s');
    case Insert(_, _, _) => InsertKeepsInv(s, a, s');
    case Rollback(_) => RetreatKeepsInv(s, a, s');
    case Commit(i) => CommitKeepsInv(s, s', i);
    case EvictSeen(_) => EvictKeepsInv(s, a, s');
    case Tick(_) => EvictKeepsInv(s, a, s');
  }

  // ---- Runs ----

  /** Nothing stored, nobody at work. */
  ghost predicate Initial(s: Sys) {
    && WellFormed(s) && s.dbs == map[] && s.committed == map[] && s.starts == []
    && forall w :: 0 <= w < |s.workers| ==> s.workers[w] == Idle
  }

  lemma InitialIsInv(s: Sys)
    requires Initial(s)
    ensures Inv(s)
  {
  }

  ghost predicate ActionAt(run: seq<Sys>, acts: seq<Action>, n: nat)
    requires |run| == |acts| + 1 && n < |acts|
  {
    WellFormed(run[n]) && Acts(run[n], acts[n], run[n + 1])
  }

  lemma ActionAtKeepsInv(run: seq<Sys>, acts: seq<Action>, n: nat)
    requires |run| == |acts| + 1 && n < |acts| && Inv(run[n]) && ActionAt(run, acts, n)
    ensures Inv(run[n + 1])
  {
    hide Inv, Acts, WellFormed;
    ActionKeepsInv(run[n], acts[n], run[n + 1]);
  }

  lemma {:induction false} RunKeepsInv(run: seq<Sys>, acts: seq<Action>, n: nat)
    requires |run| == |acts| + 1 && n < |run| && Initial(run[0])
    requires forall m: nat :: m < |acts| ==> ActionAt(run, acts, m)
    ensures Inv(run[n])
  {
    hide *;
    if n == 0 {
      InitialIsInv(run[0]);
    } else {
      RunKeepsInv(run, acts, n - 1);
      ActionAtKeepsInv(run, acts, n - 1);
    }
  }

  /**
   A tenant's rows and graph are exactly those of its committed emissions: what lost the race or was
   rolled back left no row, no node and no edge, and nothing committed is missing.
   */
  lemma OnlyCommittedIsThere(run: seq<Sys>, acts: seq<Action>, n: nat, t: Tenant)
    requires |run| == |acts| + 1 && n < |run| && Initial(run[0])
    requires forall m: nat :: m < |acts| ==> ActionAt(run, acts, m)
    ensures forall x :: x in DbOf(run[n], t).graph <==> ComesFrom(run[n].committed, t, x)
    ensures forall id :: id in run[n].committed && run[n].committed[id].0 == t ==>
      RowOf(run[n].committed[id].1) in DbOf(run[n], t).rows
    ensures forall row :: row in DbOf(run[n], t).rows ==>
      row.runId in run[n].committed && run[n].committed[row.runId].0 == t && row == RowOf(run[n].committed[row.runId].1)
  {
    hide ActionAt, Initial, GraphShows, Items, RowOf;
    RunKeepsInv(run, acts, n);
    assert TenantShows(run[n], t);
    forall x | ComesFrom(run[n].committed, t, x)
      ensures x in DbOf(run[n], t).graph
    {
      var id :| id in run[n].committed && Writes(run[n].committed[id], t, x);
      assert RunShows(run[n], id);
    }
    forall id | id in run[n].committed && run[n].committed[id].0 == t
      ensures RowOf(run[n].committed[id].1) in DbOf(run[n], t).rows
    {
      assert RunShows(run[n], id);
    }
  }

  /**
   However replicas, workers, redeliveries, failed scans and rolled-back transactions interleave, a
   tenant has at most one run per location; its count is that of the findings emitted with it, and the
   graph holds exactly the items of that emission under its run id.  Every committed run has its
   row, and every item of the graph is one of theirs.
   */
  lemma OneRunPerLocation(run: seq<Sys>, acts: seq<Action>, n: nat, t: Tenant)
    requires |run| == |acts| + 1 && n < |run| && Initial(run[0])
    requires forall m: nat :: m < |acts| ==> ActionAt(run, acts, m)
    ensures OneRowPerLocation(DbOf(run[n], t).rows)
    ensures forall i :: 0 <= i < |DbOf(run[n], t).rows| ==>
      var row := DbOf(run[n], t).rows[i];
      && row.runId in run[n].committed
      && var (u, e) := run[n].committed[row.runId];
      u == t && e.run == row.runId && e.location == row.location && row.finished && row.findings == |e.findings|
      && GraphShows(DbOf(run[n], t).graph, row.runId, e)
    ensures forall id :: id in run[n].committed && run[n].committed[id].0 == t ==>
      exists i :: 0 <= i < |DbOf(run[n], t).rows| && DbOf(run[n], t).rows[i] == RowOf(run[n].committed[id].1)
    ensures forall x :: x in DbOf(run[n], t).graph ==> ComesFrom(run[n].committed, t, x)
  {
    hide ActionAt, Initial, GraphShows, ComesFrom;
    RunKeepsInv(run, acts, n);
    OnlyCommittedIsThere(run, acts, n, t);
    assert TenantShows(run[n], t);
    assert OneRowPerLocation(DbOf(run[n], t).rows);
    forall i | 0 <= i < |DbOf(run[n], t).rows|
      ensures RunShows(run[n], DbOf(run[n], t).rows[i].runId)
    {
      assert DbOf(run[n], t).rows[i].runId in run[n].committed;
    }
  }

  /** A run id that lost the race or was rolled back is in no row and on no node or edge. */
  lemma LosersLeaveNothing(run: seq<Sys>, acts: seq<Action>, n: nat, t: Tenant, id: RunId)
    requires |run| == |acts| + 1 && n < |run| && Initial(run[0])
    requires forall m: nat :: m < |acts| ==> ActionAt(run, acts, m)
    requires id !in run[n].committed
    ensures forall i :: 0 <= i < |DbOf(run[n], t).rows| ==> DbOf(run[n], t).rows[i].runId != id
    ensures forall x :: x in DbOf(run[n], t).graph ==> RunOf(x) != Some(id) && ComesFrom(run[n].committed, t, x)
  {
    hide ActionAt, Initial, ComesFrom;
    RunKeepsInv(run, acts, n);
    assert TenantShows(run[n], t);
  }

  /** Scans of one location on one replica begin more than 24 hours apart. */
  lemma ScansAreApart(run: seq<Sys>, acts: seq<Action>, n: nat)
    requires |run| == |acts| + 1 && n < |run| && Initial(run[0])
    requires forall m: nat :: m < |acts| ==> ActionAt(run, acts, m)
    ensures StartsApart(run[n].starts)
  {
    hide ActionAt, Initial;
    RunKeepsInv(run, acts, n);
  }

  /** The classification nodes of a run, by column and tag. */
  ghost predicate Classified(g: set<Item>, e: Emission, keys: set<(string, string)>) {
    forall c, t :: (c, t) in keys <==> Classification(e.location, c, t, e.run) in g
  }

  /**
   The count in the row is the number of Classification nodes exactly when no two findings share
   column and tag; merging folds repeated ones.
   */
  lemma CountIsNodesIff(g: set<Item>, e: Emission, keys: set<(string, string)>)
    requires GraphShows(g, e.run, e) && Classified(g, e, keys)
    ensures |keys| == |e.findings| <==> NoneRepeats(e.findings)
  {
    AsManyKeysIffDistinct(e.findings);
    forall k: (string, string)
      ensures k in keys <==> k in Keys(e.findings)
    {
      var (c, t) := k;
      assert (c, t) in keys <==> Classification(e.location, c, t, e.run) in g;
      ClassificationsOf(e, |e.findings|, e.location, c, t);
      assert RunOf(Classification(e.location, c, t, e.run)) == Some(e.run);
    }
    assert keys == Keys(e.findings);
  }

  // ---- Hits without a table ----

  lemma {:induction false} LaterStarts(run: seq<Sys>, acts: seq<Action>, m: nat, n: nat)
    requires |run| == |acts| + 1 && m <= n < |run|
    requires forall k: nat :: k < |acts| ==> ActionAt(run, acts, k)
    ensures run[m].starts <= run[n].starts && run[n].home == run[m].home
  {
    hide HasLocation, Acceptable, ScanStrategy, AfterEmit, Claimed;
    if m < n {
      LaterStarts(run, acts, m, n - 1);
      assert ActionAt(run, acts, n - 1);
    }
  }

  /** Step `m` delivered this hit and a scan began. */
  ghost predicate BeginsScan(run: seq<Sys>, acts: seq<Action>, m: nat, i: nat, h: Hit)
    requires |run| == |acts| + 1 && m < |acts|
  {
    && acts[m] == Deliver(i, h) && i < |run[m].workers| && i < |run[m].home|
    && run[m + 1].starts == run[m].starts + [Start(run[m].home[i], h.location, run[m].now)]
  }

  /**
   Once a replica has begun a scan it drops, for 24 hours, every hit for that location: for whichever
   tenant, with or without a table, and whatever became of the scan.
   */
  lemma HitsAreDroppedForADay(run: seq<Sys>, acts: seq<Action>, m: nat, n: nat, i: nat, h: Hit, j: nat, late: Hit)
    requires |run| == |acts| + 1 && m < n < |acts| && Initial(run[0])
    requires forall k: nat :: k < |acts| ==> ActionAt(run, acts, k)
    requires BeginsScan(run, acts, m, i, h)
    requires acts[n] == Deliver(j, late) && late.location == h.location
    requires j < |run[n].home| && run[n].home[j] == run[m].home[i] && run[n].now - run[m].now <= SEEN_TTL
    ensures run[n + 1] == run[n]
  {
    hide Inv, Initial, Acceptable;
    var x := Start(run[m].home[i], h.location, run[m].now);
    LaterStarts(run, acts, m + 1, n);
    LaterStarts(run, acts, m, n);
    assert run[n].starts[|run[m].starts|] == x;
    assert ActionAt(run, acts, n);
    RunKeepsInv(run, acts, n);
    Remembers(run[n], |run[m].starts|);
  }

  lemma Remembers(s: Sys, k: nat)
    requires Inv(s) && k < |s.starts|
    ensures StartRemembered(s, s.starts[k])
  {
  }

  /** Nobody has, or is writing, a run of this tenant for the location, and its open scans know no table. */
  ghost predicate Unrecorded(s: Sys, t: Tenant, l: Location) {
    && !HasLocation(DbOf(s, t).rows, l)
    && forall w :: 0 <= w < |s.workers| ==> NotRecording(s.workers[w], t, l)
  }

  predicate NotRecording(w: Worker, t: Tenant, l: Location) {
    && (w.Scanning? && w.hit.tenant == t && w.hit.location == l ==> w.hit.table == "")
    && (w.InTx? && w.hit.tenant == t ==> w.emission.location != l)
  }

  predicate Nameless(a: Action, t: Tenant, l: Location) {
    a.Deliver? && a.hit.tenant == t && a.hit.location == l ==> a.hit.table == ""
  }

  lemma ActionKeepsUnrecorded(s: Sys, a: Action, s': Sys, t: Tenant, l: Location)
    requires WellFormed(s) && Acts(s, a, s') && Unrecorded(s, t, l) && Nameless(a, t, l)
    ensures Unrecorded(s', t, l)
  {
    hide Acceptable, Claimed, Items, NotRecording;
    var i := match a
      case Deliver(w, _) => w case ScanFails(w) => w case Insert(w, _, _) => w
      case Rollback(w) => w case Commit(w) => w case _ => 0;
    forall w | 0 <= w < |s'.workers|
      ensures NotRecording(s'.workers[w], t, l)
    {
      assert NotRecording(s.workers[w], t, l);
      if s'.workers[w] != s.workers[w] {
        assert w == i;
        WorkerKeepsUnrecorded(s, a, s', t, l, w);
      }
    }
    if a.Commit? {
      assert NotRecording(s.workers[a.winner], t, l);
      CommitKeepsUnrecorded(s, a, s', t, l);
    }
  }

  lemma WorkerKeepsUnrecorded(s: Sys, a: Action, s': Sys, t: Tenant, l: Location, w: nat)
    requires WellFormed(s) && Acts(s, a, s') && Nameless(a, t, l)
    requires w < |s.workers| == |s'.workers| && s'.workers[w] != s.workers[w] && NotRecording(s.workers[w], t, l)
    ensures NotRecording(s'.workers[w], t, l)
  {
    hide Acceptable, Claimed, Items, HasLocation;
  }

  lemma CommitKeepsUnrecorded(s: Sys, a: Action, s': Sys, t: Tenant, l: Location)
    requires WellFormed(s) && a.Commit? && Acts(s, a, s')
    requires !HasLocation(DbOf(s, t).rows, l) && NotRecording(s.workers[a.winner], t, l)
    ensures !HasLocation(DbOf(s', t).rows, l)
  {
    hide Items;
  }

  lemma {:induction false} StaysUnrecorded(run: seq<Sys>, acts: seq<Action>, n: nat, t: Tenant, l: Location)
    requires |run| == |acts| + 1 && n < |run| && Initial(run[0])
    requires forall m: nat :: m < |acts| ==> ActionAt(run, acts, m)
    requires forall m: nat :: m < n ==> Nameless(acts[m], t, l)
    ensures Unrecorded(run[n], t, l)
  {
    hide Acts, Nameless;
    if n > 0 {
      StaysUnrecorded(run, acts, n - 1, t, l);
      assert ActionAt(run, acts, n - 1);
      ActionKeepsUnrecorded(run[n - 1], acts[n - 1], run[n], t, l);
    }
  }

  /**
   A snapshot whose hits all lack a table name, as those of the poller do, is never recorded as
   scanned: in no run does its tenant get a row for it, or an edge from it to a detection run.
   */
  lemma NamelessHitsLeaveNoRun(run: seq<Sys>, acts: seq<Action>, n: nat, t: Tenant, l: Location)
    requires |run| == |acts| + 1 && n < |run| && Initial(run[0])
    requires forall m: nat :: m < |acts| ==> ActionAt(run, acts, m)
    requires forall m: nat :: m < n ==> Nameless(acts[m], t, l)
    ensures !HasLocation(DbOf(run[n], t).rows, l)
    ensures forall id :: ViolationDetectedBy(l, id) !in DbOf(run[n], t).graph
  {
    hide ActionAt, Initial, Nameless;
    StaysUnrecorded(run, acts, n, t, l);
    OnlyCommittedIsThere(run, acts, n, t);
    forall id: RunId
      ensures ViolationDetectedBy(l, id) !in DbOf(run[n], t).graph
    {
      if ComesFrom(run[n].committed, t, ViolationDetectedBy(l, id)) {
        EdgeHasRow(run[n], t, l, id);
      }
    }
  }

  /** Committed runs of a location are in the rows. */
  lemma EdgeHasRow(s: Sys, t: Tenant, l: Location, id: RunId)
    requires ComesFrom(s.committed, t, ViolationDetectedBy(l, id))
    requires forall r :: r in s.committed && s.committed[r].0 == t ==> RowOf(s.committed[r].1) in DbOf(s, t).rows
    ensures HasLocation(DbOf(s, t).rows, l)
  {
    var r :| r in s.committed && Writes(s.committed[r], t, ViolationDetectedBy(l, id));
    var e := s.committed[r].1;
    EdgesAreOfLocation(e, |e.findings|, l, id);
    var k :| 0 <= k < |DbOf(s, t).rows| && DbOf(s, t).rows[k] == RowOf(e);
  }

  lemma {:induction false} EdgesAreOfLocation(e: Emission, n: nat, l: Location, id: RunId)
    requires n <= |e.findings| && ViolationDetectedBy(l, id) in Items(e, n)
    ensures e.location == l
  {
    if n > 0 {
      EdgesAreOfLocation(e, n - 1, l, id);
    }
  }

  /** Transactions in flight and committed runs asked for the regex scan; the former know their table. */
  ghost predicate OnlyScans(s: Sys) {
    && (forall w :: 0 <= w < |s.workers| && s.workers[w].InTx? ==>
         Admitted(s.workers[w].emission) && s.workers[w].hit.table != "")
    && (forall id :: id in s.committed ==> Admitted(s.committed[id].1))
  }

  lemma ActionKeepsScans(s: Sys, a: Action, s': Sys)
    requires WellFormed(s) && Acts(s, a, s') && OnlyScans(s)
    ensures OnlyScans(s')
  {
    hide Acceptable, Claimed, Items, HasLocation, AfterEmit;
  }

  /** Only hits that name their table are ever recorded, and only as regex scans. */
  lemma {:induction false} RunsAreScans(run: seq<Sys>, acts: seq<Action>, n: nat)
    requires |run| == |acts| + 1 && n < |run| && Initial(run[0])
    requires forall m: nat :: m < |acts| ==> ActionAt(run, acts, m)
    ensures OnlyScans(run[n])
  {
    hide Acts, OnlyScans;
    if n > 0 {
      RunsAreScans(run, acts, n - 1);
      assert ActionAt(run, acts, n - 1);
      ActionKeepsScans(run[n - 1], acts[n - 1], run[n]);
    } else {
      NoScansYet(run[0]);
    }
  }

  lemma NoScansYet(s: Sys)
    requires Initial(s)
    ensures OnlyScans(s)
  {
  }
}
