/**
 The pin store on the graph: SnapshotPin nodes keyed by tenant and pin name, and PINS edges
 from them to Table nodes.  Expiry is compared as RFC 3339 text, to the second.
 */
module GraphPins {
  import opened Common
  import opened Timestamps
  import opened Pins

  datatype PinId = PinId(tenant: TenantId, name: string)

  /** Properties of a SnapshotPin node; `expiry` is stored as its text. */
  datatype Node = Node(principal: string, snapshotId: string, pinnedAt: Instant, expiry: Instant)

  datatype Graph = Graph(tables: set<TableKey>, nodes: map<PinId, Node>, pins: set<(PinId, TableKey)>)

  /** A result row of the query; times come back at second precision. */
  datatype Row = Row(name: string, principal: string, snapshotId: string, pinnedAt: string, expiry: string)

  type Listing = seq<Row>

  datatype State = State(graph: Graph, cache: map<TableKey, Listing>)

  function NodeOf(p: Pin): Node {
    Node(p.principal, p.snapshotId, p.pinnedAt, p.expiry)
  }

  function RowOf(id: PinId, n: Node): Row {
    Row(id.name, n.principal, n.snapshotId, Rfc3339(n.pinnedAt), Rfc3339(n.expiry))
  }

  /** The comparison of the query. */
  predicate ActiveAt(n: Node, now: Instant) {
    LexLess(Rfc3339(now), Rfc3339(n.expiry))
  }

  /** The comparison of the sweep. */
  predicate SweptAt(n: Node, now: Instant) {
    LexLess(Rfc3339(n.expiry), Rfc3339(now))
  }

  predicate Selected(g: Graph, id: PinId, key: TableKey, now: Instant) {
    && id in g.nodes && id.tenant == key.tenant
    && (id, key) in g.pins
    && ActiveAt(g.nodes[id], now)
  }

  /** What the query returns for a table. */
  function Active(g: Graph, key: TableKey, now: Instant): set<Row> {
    set id | id in g.nodes && Selected(g, id, key, now) :: RowOf(id, g.nodes[id])
  }

  ghost predicate Lists(l: Listing, s: set<Row>) {
    (set r | r in l) == s
  }

  // ---- Operations ----

  /** Node MERGE, then edge MERGE; the edge needs an existing table, and old edges stay. */
  function AfterMerge(g: Graph, t: TenantId, p: Pin): Graph {
    var id := PinId(t, p.name);
    g.(nodes := g.nodes[id := NodeOf(p)],
       pins := if KeyOf(t, p) in g.tables then g.pins + {(id, KeyOf(t, p))} else g.pins)
  }

  function AfterUpsert(s: State, t: TenantId, p: Pin): State {
    State(AfterMerge(s.graph, t, p), s.cache - {KeyOf(t, p)})
  }

  /** A commit that this process does not follow up: its caller saw an error, or another process made it. */
  function AfterMergeOnly(s: State, t: TenantId, p: Pin): State {
    State(AfterMerge(s.graph, t, p), s.cache)
  }

  /** Nodes of the tenant that the sweep at `now` selects. */
  function Expired(g: Graph, t: TenantId, now: Instant): set<PinId> {
    set id | id in g.nodes && id.tenant == t && SweptAt(g.nodes[id], now)
  }

  /** The graph without these nodes and their edges. */
  function Without(g: Graph, gone: set<PinId>): Graph {
    g.(nodes := g.nodes - gone, pins := set e | e in g.pins && e.0 !in gone)
  }

  /** DETACH DELETE; the cache is left alone. */
  function AfterSweep(g: Graph, t: TenantId, now: Instant): Graph {
    Without(g, Expired(g, t, now))
  }

  /** Literals the upsert splices into Cypher; times are spliced too, and always safe. */
  predicate SpliceablePin(t: TenantId, p: Pin) {
    && SafeLiteral(p.name) && SafeLiteral(p.principal) && SafeLiteral(p.snapshotId)
    && SafeLiteral(p.table) && SafeLiteral(p.namespace) && SafeLiteral(t)
  }

  datatype UpsertOutcome = Upserted | NoTenant | Panicked | TxFailed

  datatype QueryOutcome = Pins(rows: Listing) | NoCaller | QueryPanicked | QueryFailed

  /** Where the sweep's transaction fails, if it does; behind the commit it is too late. */
  datatype SweepFault = NoFault | QueryFails | CommitFails | ReleaseFails

  class PinStore {
    const cache: PinLRU<Listing>
    var graph: Graph

    ghost predicate Valid()
      reads this, cache
    {
      cache.Valid()
    }

    function Contents(): State
      reads this, cache
    {
      State(graph, cache.entries)
    }

    constructor (cache: PinLRU<Listing>, graph: Graph)
      requires cache.Valid()
      ensures Valid() && this.cache == cache && this.graph == graph
    {
      this.cache := cache;
      this.graph := graph;
    }

    /**
     One transaction of two merges, then the invalidation.  An error return skips the invalidation,
     whether the transaction was rolled back or the error came behind its commit.
     */
    method UpsertSnapshotPin(tenant: Option<TenantId>, p: Pin, end: TxEnd) returns (o: UpsertOutcome)
      requires Valid()
      modifies this, cache
      ensures Valid()
      ensures o == (
        if tenant.None? then NoTenant
        else if !SpliceablePin(tenant.value, p) then Panicked
        else if end.Succeeded? then Upserted else TxFailed)
      ensures tenant.Some? && !o.Panicked? <==>
        && tenant.Some?
        && SafeLiteral(p.name) && SafeLiteral(p.principal) && SafeLiteral(p.snapshotId)
        && SafeLiteral(p.table) && SafeLiteral(p.namespace) && SafeLiteral(tenant.value)
      ensures Contents() ==
        if o.Upserted? then AfterUpsert(old(Contents()), tenant.value, p)
        else if o.TxFailed? && end.CommittedThenFailed? then AfterMergeOnly(old(Contents()), tenant.value, p)
        else old(Contents())
      // Field by field: the node, the edge if there is the table, and on success the list that is dropped.
      ensures
        var written := o.Upserted? || (o.TxFailed? && end.CommittedThenFailed?);
        if !written then graph == old(graph) && cache.entries == old(cache.entries)
        else
          var id, key := PinId(tenant.value, p.name), TableKey(tenant.value, p.namespace, p.table);
          && graph.tables == old(graph).tables
          && graph.nodes == old(graph).nodes[id := Node(p.principal, p.snapshotId, p.pinnedAt, p.expiry)]
          && graph.pins == old(graph).pins + (if key in old(graph).tables then {(id, key)} else {})
          && cache.entries == (if o.Upserted? then old(cache.entries) - {key} else old(cache.entries))
    {
      if tenant.None? {
        return NoTenant;
      }
      if !SpliceablePin(tenant.value, p) {
        return Panicked;
      }
      if end.RolledBack? {
        return TxFailed;
      }
      var id := PinId(tenant.value, p.name);
      var key := KeyOf(tenant.value, p);
      var nodes := graph.nodes[id := NodeOf(p)];
      var pins := graph.pins;
      if key in graph.tables {
        pins := pins + {(id, key)};
      }
      graph := graph.(nodes := nodes, pins := pins);
      if end.CommittedThenFailed? {
        return TxFailed;
      }
      cache.Invalidate(key);
      return Upserted;
    }

    /** `rows` is the answer of the query, were it run. */
    method ActivePinsForTable(
        tenant: Option<TenantId>, namespace: seq<string>, table: string, now: Instant, rows: Reply<Listing>)
      returns (r: QueryOutcome)
      requires Valid()
      requires tenant.Some? && rows.Answer? ==>
        Lists(rows.value, Active(graph, TableKey(tenant.value, JoinNamespace(namespace), table), now))
      modifies cache
      ensures Valid() && graph == old(graph)
      ensures tenant.None? ==> r == NoCaller && cache.entries == old(cache.entries)
      ensures tenant.Some? ==>
        var key := TableKey(tenant.value, JoinNamespace(namespace), table);
        if key in old(cache.entries) then
          r == Pins(old(cache.entries)[key]) && cache.entries == old(cache.entries)
        else if !(SafeLiteral(key.tenant) && SafeLiteral(key.namespace) && SafeLiteral(key.table)) then
          r == QueryPanicked && cache.entries == old(cache.entries)
        else if rows.Failed? then
          r == QueryFailed && cache.entries == old(cache.entries)
        else
          r == Pins(rows.value) && LruAdded(old(cache.entries), cache.entries, key, rows.value, cache.size)
    {
      if tenant.None? {
        return NoCaller;
      }
      var key := TableKey(tenant.value, JoinNamespace(namespace), table);
      var cached := cache.Get(key);
      if cached.Some? {
        return Pins(cached.value);
      }
      if !SafeLiteral(key.tenant) || !SafeLiteral(key.namespace) || !SafeLiteral(key.table) {
        return QueryPanicked;
      }
      if rows.Failed? {
        return QueryFailed;
      }
      var _ := cache.Add(key, rows.value);
      return Pins(rows.value);
    }

    /**
     One transaction of the sweep.  `parses` tells whether the count that the query returns is
     readable; a transaction that fails late has returned its count all the same.
     */
    method SweepTenant(t: TenantId, now: Instant, parses: bool, fault: SweepFault) returns (deleted: nat, ok: bool)
      requires Valid()
      modifies this
      ensures Valid() && ok == fault.NoFault?
      ensures graph == if ok || fault.ReleaseFails? then AfterSweep(old(graph), t, now) else old(graph)
      ensures ok || fault.ReleaseFails? ==> LeavesOnlyUnexpired(old(graph), graph, t, now)
      ensures (ok || fault.ReleaseFails?) && parses ==> deleted + |graph.nodes| == |old(graph.nodes)|
      ensures fault.QueryFails? || !parses ==> deleted == 0
    {
      hide LexLess, Rfc3339, AfterSweep, LeavesOnlyUnexpired;
      if fault.QueryFails? {
        return 0, false;
      }
      var swept, count := DetachDelete(graph, t, now);
      deleted := if parses then count else 0;
      if fault.CommitFails? {
        return deleted, false;
      }
      SweepLeavesOnlyUnexpired(graph, t, now);
      graph := swept;
      return deleted, fault.NoFault?;
    }
  }

  /** DETACH DELETE of every node that the sweep matches, one after the other with its edges. */
  method DetachDelete(g: Graph, t: TenantId, now: Instant) returns (h: Graph, count: nat)
    ensures h == AfterSweep(g, t, now) && count + |h.nodes| == |g.nodes|
  {
    hide LexLess, Rfc3339, SweptAt, Without;
    h, count := g, 0;
    var rest := g.nodes.Keys;
    ghost var gone: set<PinId> := {};
    WithoutNothing(g);
    while rest != {}
      invariant rest <= g.nodes.Keys && gone == Expired(g, t, now) - rest
      invariant h == Without(g, gone) && count + |h.nodes| == |g.nodes|
      decreases rest
    {
      var id :| id in rest;
      rest := rest - {id};
      if id.tenant == t && SweptAt(g.nodes[id], now) {
        WithoutOneMore(g, gone, id);
        h := Without(h, {id});
        count := count + 1;
        gone := gone + {id};
      }
    }
    assert gone == Expired(g, t, now);
  }

  lemma WithoutNothing(g: Graph)
    ensures Without(g, {}) == g
  {
    assert g.nodes - {} == g.nodes;
  }

  lemma WithoutOneMore(g: Graph, gone: set<PinId>, id: PinId)
    requires id in g.nodes && id !in gone
    ensures Without(Without(g, gone), {id}) == Without(g, gone + {id})
    ensures |Without(g, gone + {id}).nodes| == |Without(g, gone).nodes| - 1
  {
    var h := Without(g, gone);
    assert g.nodes - (gone + {id}) == h.nodes - {id};
    assert (h.nodes - {id}).Keys == h.nodes.Keys - {id};
    assert |h.nodes.Keys - {id}| == |h.nodes.Keys| - 1;
  }

  /**
   Gone are exactly the tenant's nodes whose expiry second is before this one, and their edges;
   everything else is as it was.
   */
  ghost predicate LeavesOnlyUnexpired(g: Graph, h: Graph, t: TenantId, now: Instant) {
    && h.tables == g.tables
    && (forall id :: id in h.nodes <==>
         id in g.nodes && !(id.tenant == t && SecondOf(g.nodes[id].expiry) < SecondOf(now)))
    && (forall id :: id in h.nodes ==> h.nodes[id] == g.nodes[id])
    && (forall e :: e in h.pins <==> e in g.pins && (e.0 in g.nodes ==> e.0 in h.nodes))
  }

  lemma SweepLeavesOnlyUnexpired(g: Graph, t: TenantId, now: Instant)
    ensures LeavesOnlyUnexpired(g, AfterSweep(g, t, now), t, now)
  {
    hide LexLess, Rfc3339;
    forall id | id in g.nodes
      ensures SweptAt(g.nodes[id], now) <==> SecondOf(g.nodes[id].expiry) < SecondOf(now)
    {
      SweptIffEarlierSecond(g.nodes[id], now);
    }
  }

  lemma SweptIffEarlierSecond(n: Node, now: Instant)
    ensures SweptAt(n, now) <==> SecondOf(n.expiry) < SecondOf(now)
  {
    Rfc3339Order(n.expiry, now);
  }

  // ---- What is written is what is read ----

  /** The rows of a query are the fields of the nodes that pin the table and whose expiry second is to come. */
  lemma ActiveIff(g: Graph, key: TableKey, now: Instant, r: Row)
    ensures r in Active(g, key, now) <==> exists id :: id in g.nodes && PinsAs(g, id, key, now, r)
  {
    hide LexLess, Rfc3339, ActiveAt;
    if r in Active(g, key, now) {
      var id :| id in g.nodes && Selected(g, id, key, now) && RowOf(id, g.nodes[id]) == r;
      SweepAndQueryPartition(g.nodes[id], now);
      assert PinsAs(g, id, key, now, r);
    }
    if id :| id in g.nodes && PinsAs(g, id, key, now, r) {
      SweepAndQueryPartition(g.nodes[id], now);
      assert Selected(g, id, key, now) && RowOf(id, g.nodes[id]) == r;
    }
  }

  /** Node `id` pins the table until a later second, and the row tells it. */
  predicate PinsAs(g: Graph, id: PinId, key: TableKey, now: Instant, r: Row)
    requires id in g.nodes
  {
    var n := g.nodes[id];
    && id.tenant == key.tenant && (id, key) in g.pins && SecondOf(now) < SecondOf(n.expiry)
    && r.name == id.name && r.principal == n.principal && r.snapshotId == n.snapshotId
    && r.pinnedAt == Rfc3339(n.pinnedAt) && r.expiry == Rfc3339(n.expiry)
  }

  /** The pin as issued is the one row of its name. */
  ghost predicate OnlyRowOfName(rows: set<Row>, p: Pin) {
    var row := Row(p.name, p.principal, p.snapshotId, Rfc3339(p.pinnedAt), Rfc3339(p.expiry));
    row in rows && forall r :: r in rows && r.name == p.name ==> r == row
  }

  /** After an upsert for an existing table a query returns the pin as issued until its expiry second, and not then. */
  lemma UpsertIsActive(g: Graph, t: TenantId, p: Pin, now: Instant)
    requires TableKey(t, p.namespace, p.table) in g.tables
    ensures
      var rows := Active(AfterMerge(g, t, p), TableKey(t, p.namespace, p.table), now);
      if SecondOf(now) < SecondOf(p.expiry) then OnlyRowOfName(rows, p)
      else forall r :: r in rows ==> r.name != p.name
  {
    hide LexLess, Rfc3339, ActiveAt, Active;
    var h, key, id := AfterMerge(g, t, p), TableKey(t, p.namespace, p.table), PinId(t, p.name);
    var row := Row(p.name, p.principal, p.snapshotId, Rfc3339(p.pinnedAt), Rfc3339(p.expiry));
    ActiveIff(h, key, now, row);
    assert SecondOf(now) < SecondOf(p.expiry) ==> PinsAs(h, id, key, now, row);
    forall r | r in Active(h, key, now) && r.name == p.name
      ensures r == row && SecondOf(now) < SecondOf(p.expiry)
    {
      ActiveIff(h, key, now, r);
      var j :| j in h.nodes && PinsAs(h, j, key, now, r);
      assert j == id;
    }
  }

  // ---- Expiry, query and sweep ----

  /** What is not active now is not active later. */
  lemma ActiveOnlyBefore(n: Node, now: Instant, later: Instant)
    requires now <= later && ActiveAt(n, later)
    ensures ActiveAt(n, now)
  {
    Rfc3339Order(now, n.expiry);
    Rfc3339Order(later, n.expiry);
  }

  /**
   The sweep takes only what no query at that instant or later returns, and a pin is
   neither active nor swept exactly during its expiry second.
   */
  lemma SweepAndQueryPartition(n: Node, now: Instant)
    ensures SweptAt(n, now) ==> forall later: Instant :: now <= later ==> !ActiveAt(n, later)
    ensures ActiveAt(n, now) <==> SecondOf(now) < SecondOf(n.expiry)
    ensures !ActiveAt(n, now) && !SweptAt(n, now) <==> SecondOf(now) == SecondOf(n.expiry)
  {
    Rfc3339Order(now, n.expiry);
    Rfc3339Order(n.expiry, now);
    if SweptAt(n, now) {
      forall later: Instant | now <= later
        ensures !ActiveAt(n, later)
      {
        Rfc3339Order(later, n.expiry);
      }
    }
  }

  /** A sweep changes no query of that instant or later, of any tenant. */
  lemma SweepIsInvisible(g: Graph, t: TenantId, now: Instant, key: TableKey, later: Instant)
    requires now <= later
    ensures Active(AfterSweep(g, t, now), key, later) == Active(g, key, later)
  {
    var h := AfterSweep(g, t, now);
    forall id
      ensures Selected(h, id, key, later) <==> Selected(g, id, key, later)
    {
      if id in g.nodes {
        SweepAndQueryPartition(g.nodes[id], now);
      }
    }
    forall id | id in h.nodes
      ensures h.nodes[id] == g.nodes[id]
    {
    }
    SelectionDecides(h, g, key, later);
    SelectionDecides(g, h, key, later);
  }

  lemma SelectionDecides(g: Graph, h: Graph, key: TableKey, now: Instant)
    requires forall id :: Selected(g, id, key, now) ==> Selected(h, id, key, now) && h.nodes[id] == g.nodes[id]
    ensures Active(g, key, now) <= Active(h, key, now)
  {
    forall r | r in Active(g, key, now)
      ensures r in Active(h, key, now)
    {
      var id :| id in g.nodes && Selected(g, id, key, now) && RowOf(id, g.nodes[id]) == r;
      assert Selected(h, id, key, now);
    }
  }

  lemma LaterIsFewer(g: Graph, key: TableKey, now: Instant, later: Instant)
    requires now <= later
    ensures Active(g, key, later) <= Active(g, key, now)
  {
    forall r | r in Active(g, key, later)
      ensures r in Active(g, key, now)
    {
      var id :| id in g.nodes && Selected(g, id, key, later) && RowOf(id, g.nodes[id]) == r;
      ActiveOnlyBefore(g.nodes[id], now, later);
      assert Selected(g, id, key, now);
    }
  }

  // ---- The law over sequential runs ----

  datatype World = World(s: State, now: Instant)

  /** The cached list for `key` holds every row a query would return now. */
  ghost predicate ListComplete(w: World, key: TableKey)
    requires key in w.s.cache
  {
    forall r :: r in Active(w.s.graph, key, w.now) ==> r in w.s.cache[key]
  }

  ghost predicate NoneMissing(w: World) {
    forall key :: key in w.s.cache ==> ListComplete(w, key)
  }

  /** The pin name is attached to no other table. */
  ghost predicate NotMoved(g: Graph, t: TenantId, p: Pin) {
    forall key :: (PinId(t, p.name), key) in g.pins ==> key == KeyOf(t, p)
  }

  /** The pin name is attached to `key` although it is about to be written for another table. */
  predicate AlsoPins(g: Graph, t: TenantId, p: Pin, key: TableKey) {
    key != KeyOf(t, p) && key.tenant == t && (PinId(t, p.name), key) in g.pins
  }

  /** No other table of this pin name has a cached list that lacks the pin as it is about to be. */
  ghost predicate MoveIsHarmless(w: World, t: TenantId, p: Pin) {
    forall key :: key in w.s.cache && AlsoPins(w.s.graph, t, p, key) && ActiveAt(NodeOf(p), w.now) ==>
      RowOf(PinId(t, p.name), NodeOf(p)) in w.s.cache[key]
  }

  lemma UpsertSelection(g: Graph, t: TenantId, p: Pin, key: TableKey, now: Instant, id: PinId)
    requires key != KeyOf(t, p)
    ensures Selected(AfterMerge(g, t, p), id, key, now) <==>
      if id == PinId(t, p.name) then key.tenant == t && (id, key) in g.pins && ActiveAt(NodeOf(p), now)
      else Selected(g, id, key, now)
  {
  }

  /** An upsert keeps the law exactly when the move of the name, if it is one, is harmless. */
  lemma UpsertKeepsLawIff(w: World, t: TenantId, p: Pin)
    requires NoneMissing(w)
    ensures NoneMissing(World(AfterUpsert(w.s, t, p), w.now)) <==> MoveIsHarmless(w, t, p)
  {
    hide LexLess, Rfc3339;
    var w' := World(AfterUpsert(w.s, t, p), w.now);
    var g, h := w.s.graph, w'.s.graph;
    var me, row := PinId(t, p.name), RowOf(PinId(t, p.name), NodeOf(p));
    if MoveIsHarmless(w, t, p) {
      forall key, r | key in w'.s.cache && r in Active(h, key, w.now)
        ensures r in w'.s.cache[key]
      {
        var id :| id in h.nodes && Selected(h, id, key, w.now) && RowOf(id, h.nodes[id]) == r;
        UpsertSelection(g, t, p, key, w.now, id);
        if id != me {
          assert Selected(g, id, key, w.now) && r in Active(g, key, w.now);
          assert ListComplete(w, key);
        }
      }
    }
    if NoneMissing(w') {
      forall key | key in w.s.cache && AlsoPins(g, t, p, key) && ActiveAt(NodeOf(p), w.now)
        ensures row in w.s.cache[key]
      {
        assert Selected(h, me, key, w.now);
        assert row in Active(h, key, w.now);
        assert key in w'.s.cache && ListComplete(w', key);
      }
    }
  }

  /** After the merge the pin points to this table. */
  predicate ShowsIn(g: Graph, t: TenantId, p: Pin, key: TableKey) {
    key.tenant == t && ((PinId(t, p.name), key) in g.pins || (key == KeyOf(t, p) && key in g.tables))
  }

  /** A list that was complete is so after a merge unless it lacks the pin's row. */
  lemma MergedCompleteIff(g: Graph, t: TenantId, p: Pin, key: TableKey, now: Instant, rows: Listing)
    requires forall r :: r in Active(g, key, now) ==> r in rows
    ensures (forall r :: r in Active(AfterMerge(g, t, p), key, now) ==> r in rows) <==>
      (ShowsIn(g, t, p, key) && ActiveAt(NodeOf(p), now) ==> RowOf(PinId(t, p.name), NodeOf(p)) in rows)
  {
    hide LexLess, Rfc3339, ActiveAt;
    var h, me, row := AfterMerge(g, t, p), PinId(t, p.name), RowOf(PinId(t, p.name), NodeOf(p));
    if ShowsIn(g, t, p, key) && ActiveAt(NodeOf(p), now) {
      assert Selected(h, me, key, now) && row in Active(h, key, now);
    }
    forall r | r in Active(h, key, now)
      ensures r in rows || (r == row && ShowsIn(g, t, p, key) && ActiveAt(NodeOf(p), now))
    {
      var id :| id in h.nodes && Selected(h, id, key, now) && RowOf(id, h.nodes[id]) == r;
      if id != me {
        assert Selected(g, id, key, now) && r in Active(g, key, now);
      }
    }
  }

  /** Every cached list of a table that the pin then points to has the pin as issued. */
  ghost predicate MergeIsHarmless(w: World, t: TenantId, p: Pin) {
    forall key :: key in w.s.cache && ShowsIn(w.s.graph, t, p, key) && ActiveAt(NodeOf(p), w.now) ==>
      RowOf(PinId(t, p.name), NodeOf(p)) in w.s.cache[key]
  }

  /** A commit without invalidation keeps the law exactly when it is harmless in this sense. */
  lemma MergeOnlyKeepsLawIff(w: World, t: TenantId, p: Pin)
    requires NoneMissing(w)
    ensures NoneMissing(World(AfterMergeOnly(w.s, t, p), w.now)) <==> MergeIsHarmless(w, t, p)
  {
    hide Active, AfterMerge, ActiveAt;
    var w' := World(AfterMergeOnly(w.s, t, p), w.now);
    forall key | key in w.s.cache
      ensures ListComplete(w', key) <==>
        (ShowsIn(w.s.graph, t, p, key) && ActiveAt(NodeOf(p), w.now) ==>
          RowOf(PinId(t, p.name), NodeOf(p)) in w.s.cache[key])
    {
      assert ListComplete(w, key);
      MergedCompleteIff(w.s.graph, t, p, key, w.now, w.s.cache[key]);
    }
  }

  /** Sequential operations; `size` bounds the cache. */
  datatype Op =
    | Upsert(tenant: TenantId, pin: Pin)
    | MergeOnly(tenant: TenantId, pin: Pin)
    | Query(key: TableKey, rows: Listing)
    | Sweep(swept: TenantId)
    | Evict(evicted: TableKey)
    | NewTable(table: TableKey)
    | Advance(to: Instant)

  ghost predicate Does(size: nat, w: World, op: Op, w': World) {
    match op
    case Upsert(t, p) => w' == World(AfterUpsert(w.s, t, p), w.now)
    case MergeOnly(t, p) => w' == World(AfterMergeOnly(w.s, t, p), w.now)
    case Query(key, rows) =>
      if key in w.s.cache then rows == w.s.cache[key] && w' == w
      else
        && Lists(rows, Active(w.s.graph, key, w.now))
        && w'.now == w.now && w'.s.graph == w.s.graph
        && LruAdded(w.s.cache, w'.s.cache, key, rows, size)
    case Sweep(t) => w' == w.(s := w.s.(graph := AfterSweep(w.s.graph, t, w.now)))
    case Evict(key) => w' == w.(s := w.s.(cache := w.s.cache - {key}))
    case NewTable(key) => w' == w.(s := w.s.(graph := w.s.graph.(tables := w.s.graph.tables + {key})))
    case Advance(to) => w.now <= to && w' == w.(now := to)
  }

  /** The operation moves no pin name, and a commit without invalidation is for a table that is not cached. */
  ghost predicate Stays(w: World, op: Op) {
    && (op.Upsert? || op.MergeOnly? ==> NotMoved(w.s.graph, op.tenant, op.pin))
    && (op.MergeOnly? ==> KeyOf(op.tenant, op.pin) !in w.s.cache)
  }

  /** The next query of the table, which always misses the cache, lists the pin as issued until its expiry second. */
  lemma UpsertThenQuery(size: nat, w: World, t: TenantId, p: Pin, w1: World, rows: Listing, w2: World)
    requires TableKey(t, p.namespace, p.table) in w.s.graph.tables && SecondOf(w.now) < SecondOf(p.expiry)
    requires Does(size, w, Upsert(t, p), w1) && Does(size, w1, Query(TableKey(t, p.namespace, p.table), rows), w2)
    ensures OnlyRowOfName((set r | r in rows), p)
  {
    hide LexLess, Rfc3339, ActiveAt, Active;
    UpsertIsActive(w.s.graph, t, p, w.now);
  }

  /** Shrinking every query keeps the lists complete. */
  lemma FewerRowsKeepLaw(w: World, w': World)
    requires NoneMissing(w)
    requires forall k :: k in w'.s.cache ==>
      k in w.s.cache && w'.s.cache[k] == w.s.cache[k] && Active(w'.s.graph, k, w'.now) <= Active(w.s.graph, k, w.now)
    ensures NoneMissing(w')
  {
    forall k | k in w'.s.cache
      ensures ListComplete(w', k)
    {
      assert ListComplete(w, k);
    }
  }

  lemma QueryKeepsLaw(size: nat, w: World, key: TableKey, rows: Listing, w': World)
    requires NoneMissing(w) && Does(size, w, Query(key, rows), w')
    ensures NoneMissing(w')
  {
    hide LexLess, Rfc3339;
    forall k | k in w'.s.cache
      ensures ListComplete(w', k)
    {
      if k in w.s.cache {
        assert ListComplete(w, k);
      } else {
        assert k == key;
      }
    }
  }

  lemma EvictKeepsLaw(w: World, key: TableKey)
    requires NoneMissing(w)
    ensures NoneMissing(w.(s := w.s.(cache := w.s.cache - {key})))
  {
    FewerRowsKeepLaw(w, w.(s := w.s.(cache := w.s.cache - {key})));
  }

  lemma SweepKeepsLaw(w: World, t: TenantId)
    requires NoneMissing(w)
    ensures NoneMissing(w.(s := w.s.(graph := AfterSweep(w.s.graph, t, w.now))))
  {
    forall k {
      SweepIsInvisible(w.s.graph, t, w.now, k, w.now);
    }
    FewerRowsKeepLaw(w, w.(s := w.s.(graph := AfterSweep(w.s.graph, t, w.now))));
  }

  lemma AdvanceKeepsLaw(w: World, to: Instant)
    requires NoneMissing(w) && w.now <= to
    ensures NoneMissing(w.(now := to))
  {
    forall k {
      LaterIsFewer(w.s.graph, k, w.now, to);
    }
    FewerRowsKeepLaw(w, w.(now := to));
  }

  lemma NewTableKeepsLaw(w: World, key: TableKey)
    requires NoneMissing(w)
    ensures NoneMissing(w.(s := w.s.(graph := w.s.graph.(tables := w.s.graph.tables + {key}))))
  {
    var w' := w.(s := w.s.(graph := w.s.graph.(tables := w.s.graph.tables + {key})));
    forall k {
      SelectionDecides(w'.s.graph, w.s.graph, k, w.now);
    }
    FewerRowsKeepLaw(w, w');
  }

  ghost predicate IsHarmless(w: World, op: Op) {
    && (op.Upsert? ==> MoveIsHarmless(w, op.tenant, op.pin))
    && (op.MergeOnly? ==> MergeIsHarmless(w, op.tenant, op.pin))
  }

  lemma StayingIsHarmless(w: World, op: Op)
    requires Stays(w, op)
    ensures IsHarmless(w, op)
  {
    hide ActiveAt;
  }

  lemma OpKeepsLawIff(size: nat, w: World, op: Op, w': World)
    requires NoneMissing(w) && Does(size, w, op, w')
    ensures NoneMissing(w') <==> IsHarmless(w, op)
  {
    hide NoneMissing, MoveIsHarmless, MergeIsHarmless;
    match op
    case Upsert(t, p) => UpsertKeepsLawIff(w, t, p);
    case MergeOnly(t, p) => MergeOnlyKeepsLawIff(w, t, p);
    case Query(key, rows) => QueryKeepsLaw(size, w, key, rows, w');
    case Sweep(t) => SweepKeepsLaw(w, t);
    case Evict(key) => EvictKeepsLaw(w, key);
    case NewTable(key) => NewTableKeepsLaw(w, key);
    case Advance(to) => AdvanceKeepsLaw(w, to);
  }

  ghost predicate DoesAt(size: nat, run: seq<World>, ops: seq<Op>, n: nat)
    requires |run| == |ops| + 1 && n < |ops|
  {
    Does(size, run[n], ops[n], run[n + 1])
  }

  ghost predicate HarmlessAt(run: seq<World>, ops: seq<Op>, n: nat)
    requires |run| == |ops| + 1 && n < |ops|
  {
    IsHarmless(run[n], ops[n])
  }

  lemma {:induction false} LawUpTo(size: nat, run: seq<World>, ops: seq<Op>, n: nat)
    requires |run| == |ops| + 1 && n < |run| && NoneMissing(run[0])
    requires forall m: nat :: m < |ops| ==> DoesAt(size, run, ops, m)
    requires forall m: nat :: m < n ==> HarmlessAt(run, ops, m)
    ensures NoneMissing(run[n])
  {
    hide NoneMissing, Does, IsHarmless;
    if n > 0 {
      LawUpTo(size, run, ops, n - 1);
      assert DoesAt(size, run, ops, n - 1) && HarmlessAt(run, ops, n - 1);
      OpKeepsLawIff(size, run[n - 1], ops[n - 1], run[n]);
    }
  }

  /**
   The law holds at every point of a sequential run exactly when every upsert in it, and every commit
   that is not followed by an invalidation, is harmless.
   */
  lemma LawHoldsIff(size: nat, run: seq<World>, ops: seq<Op>)
    requires |run| == |ops| + 1 && NoneMissing(run[0])
    requires forall m: nat :: m < |ops| ==> DoesAt(size, run, ops, m)
    ensures (forall n: nat :: n < |run| ==> NoneMissing(run[n])) <==>
      (forall n: nat :: n < |ops| ==> HarmlessAt(run, ops, n))
  {
    hide NoneMissing, Does, IsHarmless;
    if forall n: nat :: n < |ops| ==> HarmlessAt(run, ops, n) {
      forall n: nat | n < |run| {
        LawUpTo(size, run, ops, n);
      }
    }
    if forall n: nat :: n < |run| ==> NoneMissing(run[n]) {
      forall n: nat | n < |ops|
        ensures HarmlessAt(run, ops, n)
      {
        assert DoesAt(size, run, ops, n) && NoneMissing(run[n]) && NoneMissing(run[n + 1]);
        OpKeepsLawIff(size, run[n], ops[n], run[n + 1]);
      }
    }
  }

  ghost predicate OpAt(size: nat, run: seq<World>, ops: seq<Op>, n: nat)
    requires |run| == |ops| + 1 && n < |ops|
  {
    DoesAt(size, run, ops, n) && Stays(run[n], ops[n])
  }

  /** In particular it holds along every run that moves no pin name and leaves no cached list stale. */
  lemma RunKeepsLaw(size: nat, run: seq<World>, ops: seq<Op>, n: nat)
    requires |run| == |ops| + 1 && n < |run| && run[0].s.cache == map[]
    requires forall m: nat :: m < |ops| ==> OpAt(size, run, ops, m)
    ensures NoneMissing(run[n])
  {
    hide Does, IsHarmless, Stays;
    assert NoneMissing(run[0]);
    forall m: nat | m < |ops|
      ensures DoesAt(size, run, ops, m) && HarmlessAt(run, ops, m)
    {
      assert OpAt(size, run, ops, m);
      StayingIsHarmless(run[m], ops[m]);
    }
    LawHoldsIff(size, run, ops);
  }

  /** ... so no query of such a run misses an active pin. */
  lemma QueriesMissNothing(size: nat, run: seq<World>, ops: seq<Op>, n: nat, key: TableKey, rows: Listing, w': World)
    requires |run| == |ops| + 1 && n < |run| && run[0].s.cache == map[]
    requires forall m: nat :: m < |ops| ==> OpAt(size, run, ops, m)
    requires Does(size, run[n], Query(key, rows), w')
    ensures forall r :: r in Active(run[n].s.graph, key, run[n].now) ==> r in rows
  {
    RunKeepsLaw(size, run, ops, n);
    assert key in run[n].s.cache ==> ListComplete(run[n], key);
  }

  /** The names of two tables and one pin that moves between them. */
  function Table(name: string): TableKey {
    TableKey("t", "ns", name)
  }

  function MovingPin(table: string, expiry: Instant): Pin {
    Pin("p", "op", "1", 0, expiry, table, "ns")
  }

  /**
   A move can hide an active pin: pin "p" of table "a" has expired when the empty list of "a" is
   cached; it is then issued anew for table "b".  The graph keeps its edge to "a", where a query
   would return it, but the cached list of "a" stays empty.
   */
  lemma MoveHidesPin(now: Instant, expiry: Instant)
    returns (run: seq<World>, ops: seq<Op>)
    requires SecondOf(now) < SecondOf(expiry)
    ensures |run| == |ops| + 1 == 4
    ensures forall n: nat :: n < 3 ==> Does(1, run[n], ops[n], run[n + 1])
    ensures run[0] == World(State(Graph({Table("a"), Table("b")}, map[], {}), map[]), now)
    ensures !NoneMissing(run[3])
  {
    hide LexLess, Rfc3339, ActiveAt, Active, Selected, NoneMissing, MoveIsHarmless;
    var w0 := World(State(Graph({Table("a"), Table("b")}, map[], {}), map[]), now);
    var w1 := World(AfterUpsert(w0.s, "t", MovingPin("a", now)), now);
    var w2 := w1.(s := w1.s.(cache := map[Table("a") := []]));
    var w3 := World(AfterUpsert(w2.s, "t", MovingPin("b", expiry)), now);
    EmptyListIsCached(w1, now);
    run := [w0, w1, w2, w3];
    ops := [Upsert("t", MovingPin("a", now)), Query(Table("a"), []), Upsert("t", MovingPin("b", expiry))];
    assert Does(1, w0, ops[0], w1) && Does(1, w2, ops[2], w3);
    assert Does(1, w1, ops[1], w2);
    EmptyListHidesNothing(w2, now);
    MoveIsHarmful(w2, expiry);
    UpsertKeepsLawIff(w2, "t", MovingPin("b", expiry));
  }

  lemma EmptyListIsCached(w: World, now: Instant)
    requires w.now == now && w.s.cache == map[]
    requires w.s.graph.nodes == map[PinId("t", "p") := NodeOf(MovingPin("a", now))]
    ensures Does(1, w, Query(Table("a"), []), w.(s := w.s.(cache := map[Table("a") := []])))
  {
    hide LexLess, Rfc3339, ActiveAt;
    OutdatedPinIsListedNowhere(w.s.graph, now);
    assert Lists([], {});
  }

  lemma MoveIsHarmful(w: World, expiry: Instant)
    requires SecondOf(w.now) < SecondOf(expiry) && w.s.cache == map[Table("a") := []]
    requires PinId("t", "p") in w.s.graph.nodes && (PinId("t", "p"), Table("a")) in w.s.graph.pins
    ensures !MoveIsHarmless(w, "t", MovingPin("b", expiry))
  {
    hide LexLess, Rfc3339;
    SweepAndQueryPartition(NodeOf(MovingPin("b", expiry)), w.now);
    assert AlsoPins(w.s.graph, "t", MovingPin("b", expiry), Table("a"));
  }

  /**
   An upsert that errs behind its commit, or that another process makes, hides its own pin: the empty
   list of the table stays cached.  No pin name moves.
   */
  lemma MergeOnlyHidesPin(now: Instant, expiry: Instant) returns (run: seq<World>, ops: seq<Op>)
    requires SecondOf(now) < SecondOf(expiry)
    ensures |run| == |ops| + 1 == 3
    ensures forall n: nat :: n < 2 ==> Does(1, run[n], ops[n], run[n + 1])
    ensures run[0] == World(State(Graph({Table("a")}, map[], {}), map[]), now)
    ensures ops[1] == MergeOnly("t", MovingPin("a", expiry)) && NotMoved(run[1].s.graph, "t", MovingPin("a", expiry))
    ensures !NoneMissing(run[2])
  {
    hide LexLess, Rfc3339, ActiveAt, Active, Selected, NoneMissing, MergeIsHarmless;
    var w0 := World(State(Graph({Table("a")}, map[], {}), map[]), now);
    var w1 := w0.(s := w0.s.(cache := map[Table("a") := []]));
    var w2 := World(AfterMergeOnly(w1.s, "t", MovingPin("a", expiry)), now);
    NothingActive(w0.s.graph, now);
    run := [w0, w1, w2];
    ops := [Query(Table("a"), []), MergeOnly("t", MovingPin("a", expiry))];
    assert Does(1, w0, ops[0], w1) && Does(1, w1, ops[1], w2);
    NothingMissingYet(w1, now);
    MergeIsHarmful(w1, expiry);
    MergeOnlyKeepsLawIff(w1, "t", MovingPin("a", expiry));
  }

  lemma NothingActive(g: Graph, now: Instant)
    requires g.nodes == map[]
    ensures Active(g, Table("a"), now) == {} && Lists([], Active(g, Table("a"), now))
  {
  }

  lemma NothingMissingYet(w: World, now: Instant)
    requires w.now == now && w.s.cache == map[Table("a") := []] && w.s.graph.nodes == map[]
    ensures NoneMissing(w)
  {
    NothingActive(w.s.graph, now);
  }

  lemma MergeIsHarmful(w: World, expiry: Instant)
    requires SecondOf(w.now) < SecondOf(expiry) && w.s.cache == map[Table("a") := []]
    requires Table("a") in w.s.graph.tables
    ensures !MergeIsHarmless(w, "t", MovingPin("a", expiry))
  {
    hide LexLess, Rfc3339;
    SweepAndQueryPartition(NodeOf(MovingPin("a", expiry)), w.now);
    assert ShowsIn(w.s.graph, "t", MovingPin("a", expiry), Table("a"));
  }

  lemma OutdatedPinIsListedNowhere(g: Graph, now: Instant)
    requires g.nodes == map[PinId("t", "p") := NodeOf(MovingPin("a", now))]
    ensures Active(g, Table("a"), now) == {}
  {
    SweepAndQueryPartition(NodeOf(MovingPin("a", now)), now);
  }

  lemma EmptyListHidesNothing(w: World, now: Instant)
    requires w.now == now && w.s.cache == map[Table("a") := []]
    requires w.s.graph.nodes == map[PinId("t", "p") := NodeOf(MovingPin("a", now))]
    ensures NoneMissing(w)
  {
    OutdatedPinIsListedNowhere(w.s.graph, now);
  }
}
