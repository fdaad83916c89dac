/**
 Overlapping lineage transactions.  A transaction takes an advisory lock keyed on a
 hash of its source, checks the committed graph, and publishes its edge at commit.
 The window from its check to its commit is where others can disturb it.
 */
module LineageRaces {
  import opened LineageGraph
  import opened Lineage

  datatype Phase = Waiting | Locked | Checked | Rejected | Committed | Aborted

  datatype Txn = Txn(edge: Edge, phase: Phase) {
    predicate HoldsLock() {
      phase == Locked || phase == Checked
    }
  }

  /** The committed graph and every transaction of the run. */
  datatype World = World(graph: Graph, txns: seq<Txn>)

  /** The advisory lock function of a run; `NoLock` is the same code with the lock left out. */
  datatype Locking = NoLock | LockOn(hash: Node -> int)

  predicate LockFree(k: Locking, w: World, i: nat)
    requires i < |w.txns|
  {
    k.LockOn? ==> forall j | 0 <= j < |w.txns| ::
      j != i && w.txns[j].HoldsLock() ==> k.hash(w.txns[j].edge.src) != k.hash(w.txns[i].edge.src)
  }

  function Move(w: World, i: nat, p: Phase): World
    requires i < |w.txns|
  {
    w.(txns := w.txns[i := w.txns[i].(phase := p)])
  }

  /** One step of transaction `i`.  Self-edges are refused before a transaction begins. */
  ghost predicate StepOf(k: Locking, w: World, w': World, i: nat)
    requires i < |w.txns|
  {
    var t := w.txns[i];
    match t.phase
    case Waiting =>
      t.edge.src != t.edge.tgt && LockFree(k, w, i) && w' == Move(w, i, Locked)
    case Locked =>
      || w' == Move(w, i, Aborted)
      || w' == Move(w, i, if Reaches(w.graph, t.edge.tgt, t.edge.src, CYCLE_MAX_DEPTH) then Rejected else Checked)
    case Checked =>
      || w' == Move(w, i, Aborted)
      || w' == Move(w, i, Committed).(graph := w.graph + {t.edge})
    case _ => false
  }

  ghost predicate Step(k: Locking, w: World, w': World) {
    exists i: nat :: i < |w.txns| && StepOf(k, w, w', i)
  }

  ghost predicate IsRun(k: Locking, run: seq<World>) {
    && |run| > 0
    && forall n: nat :: n < |run| - 1 ==> RunStep(k, run, n)
  }

  ghost predicate RunStep(k: Locking, run: seq<World>, n: nat)
    requires n < |run| - 1
  {
    Step(k, run[n], run[n + 1])
  }

  /** A world in which nothing has begun. */
  ghost predicate Fresh(w: World) {
    forall i :: 0 <= i < |w.txns| ==> w.txns[i].phase == Waiting
  }

  // ---- When overlap is harmless ----

  /** The two edges leave the same node or enter the same node. */
  predicate SharesEnd(d: Edge, e: Edge) {
    d.src == e.src || d.tgt == e.tgt
  }

  /** Any two transactions between check and commit share an end. */
  ghost predicate WindowsShareEnds(w: World) {
    forall i, j :: 0 <= i < |w.txns| && 0 <= j < |w.txns| && w.txns[i].phase == Checked && w.txns[j].phase == Checked
      ==> SharesEnd(w.txns[i].edge, w.txns[j].edge)
  }

  /** Every pending verdict still holds of the committed graph. */
  ghost predicate Sound(w: World) {
    && NoShortCycle(w.graph, CYCLE_MAX_DEPTH + 1)
    && forall i :: 0 <= i < |w.txns| && w.txns[i].HoldsLock() ==>
      && w.txns[i].edge.src != w.txns[i].edge.tgt
      && (w.txns[i].phase == Checked ==>
        !Reaches(w.graph, w.txns[i].edge.tgt, w.txns[i].edge.src, CYCLE_MAX_DEPTH))
  }

  /** A commit leaves the verdict on an edge that shares an end with it alone. */
  lemma CommitKeepsVerdict(g: Graph, d: Edge, e: Edge, k: nat)
    requires SharesEnd(d, e) && e.src != e.tgt
    ensures Reaches(g + {d}, e.tgt, e.src, k) <==> Reaches(g, e.tgt, e.src, k)
  {
    if d.src == e.src {
      OutEdgesOfGoalIrrelevant(g + {d}, g, e.tgt, e.src, k);
    } else {
      InEdgesOfStartIrrelevant(g + {d}, g, e.tgt, e.src, k);
    }
  }

  lemma StepKeepsSound(k: Locking, w: World, w': World)
    requires Sound(w) && WindowsShareEnds(w) && Step(k, w, w')
    ensures Sound(w')
  {
    var i: nat :| i < |w.txns| && StepOf(k, w, w', i);
    var e := w.txns[i].edge;
    if w'.graph != w.graph {
      EdgeKeepsAcyclicIff(w.graph, e, CYCLE_MAX_DEPTH);
      forall j | 0 <= j < |w'.txns| && w'.txns[j].phase == Checked
        ensures !Reaches(w'.graph, w'.txns[j].edge.tgt, w'.txns[j].edge.src, CYCLE_MAX_DEPTH)
      {
        assert w.txns[j] == w'.txns[j];
        CommitKeepsVerdict(w.graph, e, w.txns[j].edge, CYCLE_MAX_DEPTH);
      }
    }
  }

  /**
   With or without the lock: a run in which overlapping check-to-commit windows share
   their source (or their target) never builds a cycle of six edges or fewer.
   */
  lemma {:induction false} SharedEndRunsKeepAcyclic(k: Locking, run: seq<World>, n: nat)
    requires IsRun(k, run) && n < |run|
    requires Fresh(run[0]) && NoShortCycle(run[0].graph, CYCLE_MAX_DEPTH + 1)
    requires forall m :: 0 <= m < n ==> WindowsShareEnds(run[m])
    ensures Sound(run[n])
  {
    if n > 0 {
      SharedEndRunsKeepAcyclic(k, run, n - 1);
      assert RunStep(k, run, n - 1);
      StepKeepsSound(k, run[n - 1], run[n]);
    }
  }

  // ---- What the lock does ----

  ghost predicate LocksExclusive(hash: Node -> int, w: World) {
    forall i, j :: 0 <= i < j < |w.txns| && w.txns[i].HoldsLock() && w.txns[j].HoldsLock()
      ==> hash(w.txns[i].edge.src) != hash(w.txns[j].edge.src)
  }

  /**
   The lock keeps writers with one lock key, same-source writers among them, out of
   each other's window, in every run.
   */
  lemma {:induction false} LockExcludesSameKey(hash: Node -> int, run: seq<World>, n: nat)
    requires IsRun(LockOn(hash), run) && n < |run| && Fresh(run[0])
    ensures LocksExclusive(hash, run[n])
  {
    if n > 0 {
      LockExcludesSameKey(hash, run, n - 1);
      assert RunStep(LockOn(hash), run, n - 1);
    }
  }

  // ---- When overlap is harmful ----

  /** The graph that makes two edges without a common end complete a cycle. */
  function Trap(d: Edge, e: Edge): Graph {
    (if d.tgt == e.src then {} else {Edge(d.tgt, e.src)}) + (if e.tgt == d.src then {} else {Edge(e.tgt, d.src)})
  }

  lemma TrapIsClean(d: Edge, e: Edge, k: nat)
    requires d.src != d.tgt && e.src != e.tgt && !SharesEnd(d, e)
    ensures NoShortCycle(Trap(d, e), k)
    ensures !Reaches(Trap(d, e), d.tgt, d.src, k)
    ensures !Reaches(Trap(d, e), e.tgt, e.src, k)
  {
    forall w: seq<Node> | |w| >= 2 && Linked(Trap(d, e), w)
      ensures w[|w| - 1] != w[0]
      ensures !(w[0] == d.tgt && w[|w| - 1] == d.src)
      ensures !(w[0] == e.tgt && w[|w| - 1] == e.src)
    {
      TrapWalksAreSingleHops(d, e, w);
    }
  }

  lemma TrapWalksAreSingleHops(d: Edge, e: Edge, w: seq<Node>)
    requires d.src != d.tgt && e.src != e.tgt && !SharesEnd(d, e)
    requires |w| >= 2 && Linked(Trap(d, e), w)
    ensures |w| == 2 && Hop(w, 0) in Trap(d, e)
  {
    var second := if |w| > 2 then Hop(w, 1) else Hop(w, 0);
    assert Hop(w, 0) in Trap(d, e) && second in Trap(d, e);
  }

  lemma TrapSprings(d: Edge, e: Edge)
    requires d.src != d.tgt && e.src != e.tgt && !SharesEnd(d, e)
    ensures Reaches(Trap(d, e) + {d} + {e}, d.src, d.src, 4)
  {
    var g := Trap(d, e) + {d} + {e};
    var w := [d.src, d.tgt]
      + (if d.tgt == e.src then [] else [e.src])
      + [e.tgt]
      + (if e.tgt == d.src then [] else [d.src]);
    forall i | 0 <= i < |w| - 1
      ensures Hop(w, i) in g
    {
      assert Hop(w, 0) == d;
    }
    WalkReaches(g, w, 4);
  }

  /** The graph meets the pre-check of both edges. */
  ghost predicate BothPass(g: Graph, d: Edge, e: Edge) {
    && NoShortCycle(g, CYCLE_MAX_DEPTH + 1)
    && !Reaches(g, d.tgt, d.src, CYCLE_MAX_DEPTH)
    && !Reaches(g, e.tgt, e.src, CYCLE_MAX_DEPTH)
  }

  /**
   Two edges may be written in overlapping windows, whatever the graph, exactly when
   they share their source or share their target.
   */
  lemma OverlapIsSafeIff(d: Edge, e: Edge)
    requires d.src != d.tgt && e.src != e.tgt
    ensures SharesEnd(d, e) <==>
      (forall g: Graph :: BothPass(g, d, e) ==> NoShortCycle(g + {d} + {e}, CYCLE_MAX_DEPTH + 1))
  {
    if SharesEnd(d, e) {
      forall g: Graph | BothPass(g, d, e)
        ensures NoShortCycle(g + {d} + {e}, CYCLE_MAX_DEPTH + 1)
      {
        EdgeKeepsAcyclicIff(g, d, CYCLE_MAX_DEPTH);
        CommitKeepsVerdict(g, d, e, CYCLE_MAX_DEPTH);
        EdgeKeepsAcyclicIff(g + {d}, e, CYCLE_MAX_DEPTH);
      }
    } else {
      var g := Trap(d, e);
      TrapIsClean(d, e, CYCLE_MAX_DEPTH + 1);
      TrapIsClean(d, e, CYCLE_MAX_DEPTH);
      assert BothPass(g, d, e);
      TrapSprings(d, e);
      LongerBound(g + {d} + {e}, d.src, 4, CYCLE_MAX_DEPTH + 1);
    }
  }

  lemma LongerBound(g: Graph, a: Node, k: nat, m: nat)
    requires k <= m && Reaches(g, a, a, k)
    ensures Reaches(g, a, a, m)
  {
  }

  /** Lock, lock, check, check, commit, commit. */
  function RaceRun(g: Graph, d: Edge, e: Edge): seq<World> {
    [ World(g, [Txn(d, Waiting), Txn(e, Waiting)]),
      World(g, [Txn(d, Locked), Txn(e, Waiting)]),
      World(g, [Txn(d, Locked), Txn(e, Locked)]),
      World(g, [Txn(d, Checked), Txn(e, Locked)]),
      World(g, [Txn(d, Checked), Txn(e, Checked)]),
      World(g + {d}, [Txn(d, Committed), Txn(e, Checked)]),
      World(g + {d} + {e}, [Txn(d, Committed), Txn(e, Committed)]) ]
  }

  lemma RaceRunIsLegal(hash: Node -> int, g: Graph, d: Edge, e: Edge)
    requires d.src != d.tgt && e.src != e.tgt && BothPass(g, d, e)
    requires hash(d.src) != hash(e.src)
    ensures IsRun(LockOn(hash), RaceRun(g, d, e))
  {
    var run := RaceRun(g, d, e);
    var k := LockOn(hash);
    assert StepOf(k, run[0], run[1], 0);
    assert StepOf(k, run[1], run[2], 1);
    assert StepOf(k, run[2], run[3], 0);
    assert StepOf(k, run[3], run[4], 1);
    assert StepOf(k, run[4], run[5], 0);
    assert StepOf(k, run[5], run[6], 1);
  }

  /**
   The per-source lock does not make up for this: any two edges without a common end,
   whose sources hash apart, have a locked run from a clean graph that ends in a cycle of at
   most four edges.
   */
  lemma LockedWritersCloseCycle(hash: Node -> int, d: Edge, e: Edge) returns (run: seq<World>)
    requires d.src != d.tgt && e.src != e.tgt && !SharesEnd(d, e)
    requires hash(d.src) != hash(e.src)
    ensures IsRun(LockOn(hash), run) && Fresh(run[0]) && NoShortCycle(run[0].graph, CYCLE_MAX_DEPTH + 1)
    ensures !NoShortCycle(run[|run| - 1].graph, 4)
  {
    TrapIsClean(d, e, CYCLE_MAX_DEPTH + 1);
    TrapIsClean(d, e, CYCLE_MAX_DEPTH);
    RaceRunIsLegal(hash, Trap(d, e), d, e);
    TrapSprings(d, e);
    run := RaceRun(Trap(d, e), d, e);
  }

  /** In particular a -> b and b -> a, written together into an empty graph, close a 2-cycle. */
  lemma TwoWritersCloseTwoCycle(hash: Node -> int, a: Node, b: Node) returns (run: seq<World>)
    requires a != b && hash(a) != hash(b)
    ensures IsRun(LockOn(hash), run) && Fresh(run[0]) && run[0].graph == {}
    ensures run[|run| - 1].graph == {Edge(a, b), Edge(b, a)}
    ensures !NoShortCycle(run[|run| - 1].graph, 2)
  {
    var d, e := Edge(a, b), Edge(b, a);
    TrapIsClean(d, e, CYCLE_MAX_DEPTH + 1);
    TrapIsClean(d, e, CYCLE_MAX_DEPTH);
    assert Trap(d, e) == {};
    RaceRunIsLegal(hash, {}, d, e);
    run := RaceRun({}, d, e);
    var w := [a, b, a];
    assert Hop(w, 0) == d && Hop(w, 1) == e;
    WalkReaches(run[6].graph, w, 2);
  }

  // ---- The service call is the run of one transaction ----

  /** A transaction that nobody overlaps publishes what one call of the service does. */
  lemma AloneIsServiceCall(k: Locking, s: Store, q: Request, w: World) returns (run: seq<World>)
    requires Accepted(q) && q.src != q.tgt && q.src in s.nodes && q.tgt in s.nodes
    requires w.graph == s.Graph() && |w.txns| > 0 && Fresh(w) && w.txns[0].edge == Edge(q.src, q.tgt)
    ensures IsRun(k, run) && run[0] == w
    ensures run[|run| - 1].graph == AfterMerge(s, q, NoFault).Graph()
    ensures |run[|run| - 1].txns| == |w.txns|
    ensures run[|run| - 1].txns[1..] == w.txns[1..] && !run[|run| - 1].txns[0].HoldsLock()
  {
    var locked := Move(w, 0, Locked);
    assert StepOf(k, w, locked, 0);
    if ClosesShortCycle(s.Graph(), q) {
      run := [w, locked, Move(locked, 0, Rejected)];
      assert StepOf(k, locked, run[2], 0);
    } else {
      var checked := Move(locked, 0, Checked);
      assert StepOf(k, locked, checked, 0);
      run := [w, locked, checked, Move(checked, 0, Committed).(graph := w.graph + {w.txns[0].edge})];
      assert StepOf(k, checked, run[3], 0);
    }
  }
}
