/**
 The lineage ingest service: guarded MERGE of LINEAGE_OF edges, reconstruction of the
 reported cycle, and the periodic sweep.
 */
module Lineage {
  import opened Common
  import opened LineageGraph

  /** Hop bound shared by the pre-check, the path walk and the sweep. */
  const CYCLE_MAX_DEPTH: nat := 5

  /** Row limit of the sweep query. */
  const SWEEP_LIMIT: nat := 1000

  datatype EdgeProps = EdgeProps(createdAt: string, runId: string, lastSeenAt: string)

  datatype Store = Store(nodes: set<Node>, edges: map<Edge, EdgeProps>) {
    function Graph(): Graph {
      edges.Keys
    }
  }

  datatype Request = Request(tenant: string, src: Node, tgt: Node, runId: string, ts: string)

  /** Where the database gives up during one transaction, if it does; behind the commit it is too late. */
  datatype Fault = NoFault | BeforeVerdict | AfterVerdict | AfterCommit

  predicate Commits(fault: Fault) {
    fault == NoFault || fault == AfterCommit
  }

  datatype Outcome =
    | Merged
    | EmptyUri
    | UnsafeLiteral
    | CycleRejected(path: seq<Node>)
    | StoreFailure

  predicate Accepted(q: Request) {
    && q.src != "" && q.tgt != ""
    && SafeLiteral(q.src) && SafeLiteral(q.tgt)
    && SafeLiteral(q.tenant) && SafeLiteral(q.runId)
  }

  // ---- One merge as a state change ----

  /** Properties of an edge after a MERGE: creation data is kept, the heartbeat moves. */
  function Touched(s: Store, q: Request): EdgeProps {
    var e := Edge(q.src, q.tgt);
    if e in s.edges then s.edges[e].(lastSeenAt := q.ts)
    else EdgeProps(q.ts, q.runId, q.ts)
  }

  /** The MERGE statement; it matches nothing when an endpoint is missing. */
  function WithEdge(s: Store, q: Request): Store {
    if q.src in s.nodes && q.tgt in s.nodes
    then s.(edges := s.edges[Edge(q.src, q.tgt) := Touched(s, q)])
    else s
  }

  /** The requested edge would close a cycle that the pre-check is meant to see. */
  ghost predicate ClosesShortCycle(g: Graph, q: Request) {
    q.src == q.tgt || Reaches(g, q.tgt, q.src, CYCLE_MAX_DEPTH)
  }

  /** What one call does to the store. */
  ghost function AfterMerge(s: Store, q: Request, fault: Fault): Store {
    if Accepted(q) && Commits(fault) && !ClosesShortCycle(s.Graph(), q) then WithEdge(s, q) else s
  }

  // ---- Reported cycle paths ----

  /** `next(n, hop)` answers the one-hop query of the path walk: a successor, or no row. */
  ghost predicate AnswersOneHop(g: Graph, next: (Node, nat) -> Option<Node>) {
    forall n, h {:trigger next(n, h)} :: next(n, h).Some? ==> Edge(n, next(n, h).value) in g
  }

  /** ... and it finds a row whenever there is one. */
  ghost predicate NeverFails(g: Graph, next: (Node, nat) -> Option<Node>) {
    forall e, h {:trigger e in g, next(e.src, h)} :: e in g ==> next(e.src, h).Some?
  }

  ghost predicate OneSuccessor(g: Graph) {
    forall d, e :: d in g && e in g && d.src == e.src ==> d == e
  }

  /**
   Rebuilds the cycle that `src -> tgt` would close.  `closed` tells whether the walk
   arrived at `src` before the hop bound.
   */
  method FetchCyclePath(g: Graph, next: (Node, nat) -> Option<Node>, src: Node, tgt: Node)
    returns (chain: seq<Node>, ghost closed: bool)
    requires AnswersOneHop(g, next)
    ensures 3 <= |chain| <= CYCLE_MAX_DEPTH + 3
    ensures chain[0] == tgt && chain[|chain| - 1] == tgt && chain[|chain| - 2] == src
    ensures closed ==>
      && |chain| <= CYCLE_MAX_DEPTH + 2
      && (forall i :: 0 <= i < |chain| - 2 ==> Hop(chain, i) in g)
      && Hop(chain, |chain| - 2) == Edge(src, tgt)
    ensures !closed ==>
      && (forall i :: 0 <= i < |chain| - 3 ==> Hop(chain, i) in g)
      && (forall i :: 1 <= i < |chain| - 2 ==> chain[i] != src)
    ensures OneSuccessor(g) && NeverFails(g, next) && Reaches(g, tgt, src, CYCLE_MAX_DEPTH) ==> closed
  {
    ghost var certain := OneSuccessor(g) && NeverFails(g, next) && Reaches(g, tgt, src, CYCLE_MAX_DEPTH);
    ghost var w: seq<Node> := [];
    if certain {
      w :| IsWalk(g, w, tgt, src) && |w| - 1 <= CYCLE_MAX_DEPTH;
    }
    chain := [tgt];
    var current := tgt;
    var hop := 0;
    while hop < CYCLE_MAX_DEPTH
      invariant 0 <= hop <= CYCLE_MAX_DEPTH
      invariant |chain| == hop + 1 && chain[0] == tgt && chain[hop] == current
      invariant forall i :: 0 <= i < hop ==> Hop(chain, i) in g
      invariant forall i :: 1 <= i <= hop ==> chain[i] != src
      invariant certain ==> hop < |w| - 1 && w[..hop + 1] == chain
    {
      assert certain ==> Hop(w, hop) in g && w[hop] == current;
      match next(current, hop) {
        case None => break;
        case Some(n) =>
          assert Edge(current, n) in g;
          ghost var before := chain;
          chain := chain + [n];
          assert forall i :: 0 <= i < hop ==> Hop(chain, i) == Hop(before, i);
          assert Hop(chain, hop) == Edge(current, n);
          if n == src {
            ghost var links := chain;
            chain := chain + [tgt];
            assert forall i :: 0 <= i <= hop ==> Hop(chain, i) == Hop(links, i);
            return chain, true;
          }
          current := n;
      }
      hop := hop + 1;
    }
    ghost var links := chain;
    chain := chain + [src, tgt];
    assert forall i :: 0 <= i < |links| - 1 ==> Hop(chain, i) == Hop(links, i);
    closed := false;
  }

  // ---- The service ----

  class Service {
    var nodes: set<Node>
    var edges: map<Edge, EdgeProps>

    constructor (nodes: set<Node>)
      ensures Contents() == Store(nodes, map[])
    {
      this.nodes := nodes;
      this.edges := map[];
    }

    function Contents(): Store
      reads this
    {
      Store(nodes, edges)
    }

    /** Lock, check, merge and commit, with no other writer in between. */
    method MergeLineageEdge(q: Request, fault: Fault, next: (Node, nat) -> Option<Node>) returns (r: Outcome)
      requires AnswersOneHop(edges.Keys, next)
      modifies this
      ensures Contents() == AfterMerge(old(Contents()), q, fault)
      ensures r.EmptyUri? <==> q.src == "" || q.tgt == ""
      ensures r.UnsafeLiteral? <==> !r.EmptyUri? && !Accepted(q)
      ensures !r.EmptyUri? && !r.UnsafeLiteral? <==>
        && q.src != "" && q.tgt != ""
        && SafeLiteral(q.src) && SafeLiteral(q.tgt) && SafeLiteral(q.tenant) && SafeLiteral(q.runId)
      ensures r.CycleRejected? <==>
        (Accepted(q) && (q.src == q.tgt || (fault != BeforeVerdict && ClosesShortCycle(old(edges.Keys), q))))
      ensures r.Merged? <==> Accepted(q) && fault == NoFault && !ClosesShortCycle(old(edges.Keys), q)
      ensures r.StoreFailure? <==> (Accepted(q) && q.src != q.tgt &&
        (fault == BeforeVerdict || (fault != NoFault && !ClosesShortCycle(old(edges.Keys), q))))
      ensures r.CycleRejected? && q.src == q.tgt ==> r.path == [q.src, q.tgt]
      ensures r.CycleRejected? && q.src != q.tgt ==>
        |r.path| >= 3 && r.path[0] == q.tgt && r.path[|r.path| - 1] == q.tgt && r.path[|r.path| - 2] == q.src
      // An edge that is there keeps who made it and when, and is dated anew; no other edge changes.
      ensures
        var e, committed := Edge(q.src, q.tgt), r.Merged? || (r.StoreFailure? && fault == AfterCommit);
        && nodes == old(nodes)
        && edges == if committed && q.src in nodes && q.tgt in nodes
                    then old(edges)[e := if e in old(edges)
                                         then EdgeProps(old(edges)[e].createdAt, old(edges)[e].runId, q.ts)
                                         else EdgeProps(q.ts, q.runId, q.ts)]
                    else old(edges)
    {
      hide SafeLiteral, Reaches, BoundedMatch, OneSuccessor, NeverFails;
      if q.src == "" || q.tgt == "" {
        return EmptyUri;
      }
      if !SafeLiteral(q.src) || !SafeLiteral(q.tgt) || !SafeLiteral(q.tenant) || !SafeLiteral(q.runId) {
        return UnsafeLiteral;
      }
      if q.src == q.tgt {
        return CycleRejected([q.src, q.tgt]);
      }
      if fault == BeforeVerdict {
        return StoreFailure;
      }
      MatchIffReaches(edges.Keys, q.tgt, q.src, CYCLE_MAX_DEPTH);
      if BoundedMatch(edges.Keys, q.tgt, q.src, {}, CYCLE_MAX_DEPTH) {
        var path, _ := FetchCyclePath(edges.Keys, next, q.src, q.tgt);
        return CycleRejected(path);
      }
      if fault == AfterVerdict {
        return StoreFailure;
      }
      edges := WithEdge(Store(nodes, edges), q).edges;
      return if fault == AfterCommit then StoreFailure else Merged;
    }
  }

  // ---- Serial runs ----

  ghost function Run(s: Store, calls: seq<(Request, Fault)>): Store
    decreases |calls|
  {
    if calls == [] then s
    else Run(AfterMerge(s, calls[0].0, calls[0].1), calls[1..])
  }

  lemma MergeKeepsAcyclic(s: Store, q: Request, fault: Fault)
    requires NoShortCycle(s.Graph(), CYCLE_MAX_DEPTH + 1)
    ensures NoShortCycle(AfterMerge(s, q, fault).Graph(), CYCLE_MAX_DEPTH + 1)
  {
    var e := Edge(q.src, q.tgt);
    EdgeKeepsAcyclicIff(s.Graph(), e, CYCLE_MAX_DEPTH);
    assert WithEdge(s, q).Graph() == s.Graph() || WithEdge(s, q).Graph() == s.Graph() + {e};
  }

  /** No serial run of merges ever builds a cycle of six edges or fewer. */
  lemma {:induction false} SerialRunsKeepAcyclic(s: Store, calls: seq<(Request, Fault)>)
    requires NoShortCycle(s.Graph(), CYCLE_MAX_DEPTH + 1)
    ensures NoShortCycle(Run(s, calls).Graph(), CYCLE_MAX_DEPTH + 1)
    decreases |calls|
  {
    if calls != [] {
      MergeKeepsAcyclic(s, calls[0].0, calls[0].1);
      SerialRunsKeepAcyclic(AfterMerge(s, calls[0].0, calls[0].1), calls[1..]);
    }
  }

  /** Who made an edge and when is never overwritten, and no edge is lost. */
  lemma {:induction false} RunsKeepCreation(s: Store, calls: seq<(Request, Fault)>, e: Edge)
    requires e in s.edges
    ensures e in Run(s, calls).edges
    ensures Run(s, calls).edges[e].createdAt == s.edges[e].createdAt
    ensures Run(s, calls).edges[e].runId == s.edges[e].runId
    ensures
      var seen := Run(s, calls).edges[e].lastSeenAt;
      seen == s.edges[e].lastSeenAt
      || exists i :: 0 <= i < |calls| && Edge(calls[i].0.src, calls[i].0.tgt) == e && calls[i].0.ts == seen
    decreases |calls|
  {
    hide Accepted, Commits, ClosesShortCycle;
    if calls != [] {
      var next := AfterMerge(s, calls[0].0, calls[0].1);
      RunsKeepCreation(next, calls[1..], e);
      var seen := Run(s, calls).edges[e].lastSeenAt;
      if seen != next.edges[e].lastSeenAt {
        var rest := calls[1..];
        var i :| 0 <= i < |rest| && Edge(rest[i].0.src, rest[i].0.tgt) == e && rest[i].0.ts == seen;
        assert calls[i + 1] == rest[i];
      }
    }
  }

  lemma {:induction false} RunAppend(s: Store, a: seq<(Request, Fault)>, b: seq<(Request, Fault)>)
    ensures Run(s, a + b) == Run(Run(s, a), b)
    decreases |a|
  {
    if a == [] {
      assert a + b == b;
    } else {
      assert (a + b)[1..] == a[1..] + b;
      RunAppend(AfterMerge(s, a[0].0, a[0].1), a[1..], b);
    }
  }

  /** The request for the edge from the `i`-th to the `j`-th node of a ring. */
  function RingRequest(i: nat, j: nat): Request {
    Request("t", Name(i), Name(j), "", "")
  }

  function ChainCalls(m: nat): seq<(Request, Fault)> {
    seq(m, i requires 0 <= i < m => (RingRequest(i, i + 1), NoFault))
  }

  function RingNodes(n: nat): Store {
    Store(set i | 0 <= i < n + 1 :: Name(i), map[])
  }

  /** One accepted link more. */
  lemma ChainStep(s: Store, m: nat)
    requires s.Graph() == Chain(m) && Name(m) in s.nodes && Name(m + 1) in s.nodes
    ensures AfterMerge(s, RingRequest(m, m + 1), NoFault).Graph() == Chain(m + 1)
    ensures AfterMerge(s, RingRequest(m, m + 1), NoFault).nodes == s.nodes
  {
    ChainReachesOnlyForward(m, m + 1, m, CYCLE_MAX_DEPTH);
    assert |Name(m)| != |Name(m + 1)|;
    assert Chain(m + 1) == Chain(m) + {Link(m)};
  }

  lemma {:induction false} ChainIsAccepted(n: nat, m: nat)
    requires m <= n
    ensures Run(RingNodes(n), ChainCalls(m)).Graph() == Chain(m)
    ensures Run(RingNodes(n), ChainCalls(m)).nodes == RingNodes(n).nodes
    decreases m
  {
    if m > 0 {
      ChainIsAccepted(n, m - 1);
      var call := (RingRequest(m - 1, m), NoFault);
      assert ChainCalls(m) == ChainCalls(m - 1) + [call];
      RunAppend(RingNodes(n), ChainCalls(m - 1), [call]);
      ChainStep(Run(RingNodes(n), ChainCalls(m - 1)), m - 1);
    }
  }

  lemma EmptyGraphIsAcyclic(k: nat)
    ensures NoShortCycle({}, k)
  {
    forall a
      ensures !Reaches({}, a, a, k)
    {
      if Reaches({}, a, a, k) {
        var _ := FirstHop({}, a, a, k);
      }
    }
  }

  /** The calls that build a ring of `n` nodes, the closing edge last. */
  function RingCalls(n: nat): seq<(Request, Fault)>
    requires n > 0
  {
    ChainCalls(n - 1) + [(RingRequest(n - 1, 0), NoFault)]
  }

  lemma RingClosureStep(s: Store, n: nat)
    requires n > CYCLE_MAX_DEPTH + 1
    requires s.Graph() == Chain(n - 1) && Name(0) in s.nodes && Name(n - 1) in s.nodes
    ensures AfterMerge(s, RingRequest(n - 1, 0), NoFault).Graph() == Ring(n)
  {
    ChainReachesOnlyForward(n - 1, 0, n - 1, CYCLE_MAX_DEPTH);
    assert |Name(0)| != |Name(n - 1)|;
  }

  /**
   The bound is tight: the merges that build a ring are all let through exactly when
   the ring has at least seven edges.
   */
  lemma RingIsBuiltIffLong(n: nat)
    requires n > 0
    ensures Run(RingNodes(n), RingCalls(n)).Graph() == Ring(n) <==> n > CYCLE_MAX_DEPTH + 1
  {
    if n > CYCLE_MAX_DEPTH + 1 {
      ChainIsAccepted(n, n - 1);
      RunAppend(RingNodes(n), ChainCalls(n - 1), [(RingRequest(n - 1, 0), NoFault)]);
      RingClosureStep(Run(RingNodes(n), ChainCalls(n - 1)), n);
    } else {
      EmptyGraphIsAcyclic(CYCLE_MAX_DEPTH + 1);
      assert RingNodes(n).Graph() == {};
      SerialRunsKeepAcyclic(RingNodes(n), RingCalls(n));
      RingHasOneCycleLength(n, CYCLE_MAX_DEPTH + 1);
    }
  }

  // ---- The periodic sweep ----

  /** Rows of the sweep query: anchors of closed trails, all of them unless the limit cuts in. */
  ghost predicate SweepRows(g: Graph, rows: seq<Node>) {
    && |rows| <= SWEEP_LIMIT
    && (forall n :: n in rows ==> ReachesByTrail(g, n, n, CYCLE_MAX_DEPTH))
    && (|rows| < SWEEP_LIMIT ==> forall n :: ReachesByTrail(g, n, n, CYCLE_MAX_DEPTH) ==> n in rows)
  }

  /** One path for each anchor, in order. */
  method FetchAll(g: Graph, anchors: seq<Node>, next: (Node, nat) -> Option<Node>) returns (reports: seq<seq<Node>>)
    requires AnswersOneHop(g, next)
    ensures |reports| == |anchors|
    ensures forall j :: 0 <= j < |anchors| ==> Reports(anchors[j], reports[j])
  {
    reports := [];
    for i := 0 to |anchors|
      invariant |reports| == i
      invariant forall j :: 0 <= j < i ==> Reports(anchors[j], reports[j])
    {
      var cycle, _ := FetchCyclePath(g, next, anchors[i], anchors[i]);
      reports := reports + [cycle];
    }
  }

  /** The path starts and ends at the anchor. */
  predicate Reports(anchor: Node, path: seq<Node>) {
    3 <= |path| <= CYCLE_MAX_DEPTH + 3 && path[0] == path[|path| - 1] == anchor
  }

  lemma AnchorsReport(anchors: seq<Node>, reports: seq<seq<Node>>)
    requires |reports| == |anchors| && forall j :: 0 <= j < |anchors| ==> Reports(anchors[j], reports[j])
    ensures forall n :: n in anchors ==> exists p :: p in reports && Reports(n, p)
    ensures forall p :: p in reports ==> exists n :: n in anchors && Reports(n, p)
  {
    forall n | n in anchors
      ensures exists p :: p in reports && Reports(n, p)
    {
      var j :| 0 <= j < |anchors| && anchors[j] == n;
      assert reports[j] in reports && Reports(n, reports[j]);
    }
    forall p | p in reports
      ensures exists n :: n in anchors && Reports(n, p)
    {
      var j :| 0 <= j < |reports| && reports[j] == p;
      assert anchors[j] in anchors && Reports(anchors[j], p);
    }
  }

  /**
   One sweep: collect the anchors of the rows that scan, then rebuild one path for each.
   A broken row stream ends the sweep before anything is reported.
   */
  method RunCycleSweepOnce(
      g: Graph, rows: seq<Node>, scans: nat -> bool, streamBreaks: bool, next: (Node, nat) -> Option<Node>)
    returns (r: Reply<seq<seq<Node>>>)
    requires AnswersOneHop(g, next) && SweepRows(g, rows)
    ensures r.Failed? <==> streamBreaks
    ensures r.Answer? ==> |r.value| <= SWEEP_LIMIT && OnlyCycles(g, r.value)
    ensures r.Answer? && |rows| < SWEEP_LIMIT && (forall i: nat :: i < |rows| ==> scans(i)) ==> AllCycles(g, r.value)
  {
    hide ReachesByTrail, Reaches, Reports, OnlyCycles, AllCycles;
    var anchors := CollectAnchors(rows, scans);
    if streamBreaks {
      return Failed;
    }
    var reports := FetchAll(g, anchors, next);
    AnchorsReport(anchors, reports);
    ReportsAreCycles(g, rows, anchors, reports);
    return Answer(reports);
  }

  /** The rows that scan, in order. */
  method CollectAnchors(rows: seq<Node>, scans: nat -> bool) returns (anchors: seq<Node>)
    ensures |anchors| <= |rows| && forall n :: n in anchors ==> n in rows
    ensures (forall i: nat :: i < |rows| ==> scans(i)) ==> anchors == rows
  {
    anchors := [];
    for i := 0 to |rows|
      invariant |anchors| <= i
      invariant forall n :: n in anchors ==> n in rows
      invariant (forall j: nat :: j < i ==> scans(j)) ==> anchors == rows[..i]
    {
      if scans(i) {
        anchors := anchors + [rows[i]];
      }
    }
  }

  /** Every report is a path from and to a node on a cycle of up to five edges. */
  ghost predicate OnlyCycles(g: Graph, reports: seq<seq<Node>>) {
    forall p :: p in reports ==> exists n :: Reports(n, p) && Reaches(g, n, n, CYCLE_MAX_DEPTH)
  }

  /** Every node on such a cycle is reported. */
  ghost predicate AllCycles(g: Graph, reports: seq<seq<Node>>) {
    forall n :: Reaches(g, n, n, CYCLE_MAX_DEPTH) ==> exists p :: p in reports && Reports(n, p)
  }

  lemma ReportsAreCycles(g: Graph, rows: seq<Node>, anchors: seq<Node>, reports: seq<seq<Node>>)
    requires SweepRows(g, rows) && forall n :: n in anchors ==> n in rows
    requires forall n :: n in anchors ==> exists p :: p in reports && Reports(n, p)
    requires forall p :: p in reports ==> exists n :: n in anchors && Reports(n, p)
    ensures OnlyCycles(g, reports)
    ensures anchors == rows && |rows| < SWEEP_LIMIT ==> AllCycles(g, reports)
  {
    hide ReachesByTrail, Reaches, Reports;
    ClosedTrailsAreWalks(g);
  }

  lemma ClosedTrailsAreWalks(g: Graph)
    ensures forall n :: ReachesByTrail(g, n, n, CYCLE_MAX_DEPTH) <==> Reaches(g, n, n, CYCLE_MAX_DEPTH)
  {
    forall n
      ensures ReachesByTrail(g, n, n, CYCLE_MAX_DEPTH) <==> Reaches(g, n, n, CYCLE_MAX_DEPTH)
    {
      TrailIffWalk(g, n, n, CYCLE_MAX_DEPTH);
    }
  }

  /** The sweep has nothing to report exactly on graphs without cycles of up to five edges. */
  lemma SweepSilentIff(g: Graph, rows: seq<Node>)
    requires SweepRows(g, rows)
    ensures rows == [] <==> NoShortCycle(g, CYCLE_MAX_DEPTH)
  {
    ClosedTrailsAreWalks(g);
    if rows != [] {
      assert rows[0] in rows;
    }
  }

  /**
   The sweep is not the backstop for long cycles: it is silent on every ring of six or
   more edges, while a ring of up to five always shows.
   */
  lemma SweepSeesRingIffShort(n: nat, rows: seq<Node>)
    requires n > 0 && SweepRows(Ring(n), rows)
    ensures rows != [] <==> n <= CYCLE_MAX_DEPTH
  {
    SweepSilentIff(Ring(n), rows);
    RingHasOneCycleLength(n, CYCLE_MAX_DEPTH);
  }
}
