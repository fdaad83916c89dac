/**
 Lineage graphs, the walks in them, and the bounded variable-length match that the
 cycle pre-check runs.

 An edge is identified by its endpoints, as the keyed MERGE makes it.  A walk of n
 hops is the sequence of the n + 1 nodes it visits.
 */
module LineageGraph {

  type Node = string

  datatype Edge = Edge(src: Node, tgt: Node)

  type Graph = set<Edge>

  /** The `i`-th hop of a walk. */
  function Hop(w: seq<Node>, i: nat): Edge
    requires i < |w| - 1
  {
    Edge(w[i], w[i + 1])
  }

  /** Every two neighbours in `w` are joined by an edge of `g`. */
  ghost predicate Linked(g: Graph, w: seq<Node>) {
    forall i :: 0 <= i < |w| - 1 ==> Hop(w, i) in g
  }

  /** A walk of at least one hop from `a` to `b`. */
  ghost predicate IsWalk(g: Graph, w: seq<Node>, a: Node, b: Node) {
    && |w| >= 2
    && w[0] == a
    && w[|w| - 1] == b
    && Linked(g, w)
  }

  /** No edge is taken twice: the walks a variable-length Cypher pattern matches. */
  ghost predicate NoRepeatedEdge(w: seq<Node>) {
    forall i, j :: 0 <= i < j < |w| - 1 ==> Hop(w, i) != Hop(w, j)
  }

  ghost predicate Reaches(g: Graph, a: Node, b: Node, k: nat) {
    exists w :: IsWalk(g, w, a, b) && |w| - 1 <= k
  }

  ghost predicate ReachesByTrail(g: Graph, a: Node, b: Node, k: nat) {
    exists w :: IsWalk(g, w, a, b) && |w| - 1 <= k && NoRepeatedEdge(w)
  }

  /** `g` has no closed walk, hence no directed cycle, of at most `k` edges. */
  ghost predicate NoShortCycle(g: Graph, k: nat) {
    forall a :: !Reaches(g, a, a, k)
  }

  /**
   The search behind `MATCH (a)-[:LINEAGE_OF*1..hops]->(b)`: follow edges that were
   not used before, up to `hops` of them.
   */
  predicate BoundedMatch(g: Graph, a: Node, b: Node, used: set<Edge>, hops: nat)
    decreases hops
  {
    hops > 0 &&
    exists e | e in g ::
      && e.src == a
      && e !in used
      && (e.tgt == b || BoundedMatch(g, e.tgt, b, used + {e}, hops - 1))
  }

  lemma WalkReaches(g: Graph, w: seq<Node>, k: nat)
    requires 2 <= |w| <= k + 1 && Linked(g, w)
    ensures Reaches(g, w[0], w[|w| - 1], k)
  {
    assert IsWalk(g, w, w[0], w[|w| - 1]);
  }

  lemma FirstHop(g: Graph, a: Node, b: Node, k: nat) returns (e: Edge)
    requires Reaches(g, a, b, k)
    ensures e in g && e.src == a
  {
    var w :| IsWalk(g, w, a, b) && |w| - 1 <= k;
    e := Hop(w, 0);
  }

  // ---- Trails and walks of the same bound ----

  /** Cutting the loop out of a walk that repeats an edge keeps its endpoints. */
  lemma CutRepeat(g: Graph, w: seq<Node>, a: Node, b: Node, i: nat, j: nat)
    requires IsWalk(g, w, a, b)
    requires i < j < |w| - 1 && Hop(w, i) == Hop(w, j)
    ensures IsWalk(g, w[..i] + w[j..], a, b)
    ensures |w[..i] + w[j..]| < |w|
  {
    var c := w[..i] + w[j..];
    forall m | 0 <= m < |c| - 1
      ensures Hop(c, m) in g
    {
      assert Hop(c, m) == if m < i then Hop(w, m) else Hop(w, j + (m - i));
    }
  }

  lemma {:induction false} WalkToTrail(g: Graph, w: seq<Node>, a: Node, b: Node) returns (t: seq<Node>)
    requires IsWalk(g, w, a, b)
    ensures IsWalk(g, t, a, b) && NoRepeatedEdge(t) && |t| <= |w|
    decreases |w|
  {
    if NoRepeatedEdge(w) {
      t := w;
    } else {
      var i, j :| 0 <= i < j < |w| - 1 && Hop(w, i) == Hop(w, j);
      CutRepeat(g, w, a, b, i, j);
      t := WalkToTrail(g, w[..i] + w[j..], a, b);
    }
  }

  /** Forbidding repeated edges does not change what is reachable within a bound. */
  lemma TrailIffWalk(g: Graph, a: Node, b: Node, k: nat)
    ensures ReachesByTrail(g, a, b, k) <==> Reaches(g, a, b, k)
  {
    if Reaches(g, a, b, k) {
      var w :| IsWalk(g, w, a, b) && |w| - 1 <= k;
      var t := WalkToTrail(g, w, a, b);
    }
  }

  // ---- The search and the trails it stands for ----

  /** The edges of `w`. */
  ghost function EdgesOf(w: seq<Node>): set<Edge> {
    set i | 0 <= i < |w| - 1 :: Hop(w, i)
  }

  lemma PrependEdge(g: Graph, e: Edge, rest: seq<Node>, b: Node)
    requires e in g && IsWalk(g, rest, e.tgt, b)
    ensures IsWalk(g, [e.src] + rest, e.src, b)
    ensures EdgesOf([e.src] + rest) == {e} + EdgesOf(rest)
  {
    var w := [e.src] + rest;
    assert Hop(w, 0) == e;
    forall i | 1 <= i < |w| - 1
      ensures Hop(w, i) == Hop(rest, i - 1)
    {}
    forall i | 0 <= i < |rest| - 1
      ensures Hop(rest, i) == Hop(w, i + 1)
    {}
  }

  lemma {:induction false} MatchToWalk(g: Graph, a: Node, b: Node, used: set<Edge>, hops: nat) returns (w: seq<Node>)
    requires BoundedMatch(g, a, b, used, hops)
    ensures IsWalk(g, w, a, b) && |w| - 1 <= hops
    decreases hops
  {
    var e :| e in g && e.src == a && e !in used &&
      (e.tgt == b || BoundedMatch(g, e.tgt, b, used + {e}, hops - 1));
    if e.tgt == b {
      w := [a, b];
      assert Hop(w, 0) == e;
    } else {
      var rest := MatchToWalk(g, e.tgt, b, used + {e}, hops - 1);
      PrependEdge(g, e, rest, b);
      w := [a] + rest;
    }
  }

  lemma {:induction false} TrailToMatch(g: Graph, w: seq<Node>, a: Node, b: Node, used: set<Edge>, hops: nat)
    requires IsWalk(g, w, a, b) && NoRepeatedEdge(w) && |w| - 1 <= hops
    requires EdgesOf(w) !! used
    ensures BoundedMatch(g, a, b, used, hops)
    decreases hops
  {
    var e := Hop(w, 0);
    assert e in EdgesOf(w);
    if e.tgt != b {
      var rest := w[1..];
      forall i | 0 <= i < |rest| - 1
        ensures Hop(rest, i) == Hop(w, i + 1) && Hop(rest, i) in EdgesOf(w) && Hop(rest, i) != e
      {}
      TrailToMatch(g, rest, e.tgt, b, used + {e}, hops - 1);
    }
  }

  /**
   The bounded match succeeds exactly when a plain walk of the same bound exists.
   */
  lemma MatchIffReaches(g: Graph, a: Node, b: Node, hops: nat)
    ensures BoundedMatch(g, a, b, {}, hops) <==> Reaches(g, a, b, hops)
  {
    if BoundedMatch(g, a, b, {}, hops) {
      var w := MatchToWalk(g, a, b, {}, hops);
    }
    TrailIffWalk(g, a, b, hops);
    if ReachesByTrail(g, a, b, hops) {
      var w :| IsWalk(g, w, a, b) && |w| - 1 <= hops && NoRepeatedEdge(w);
      TrailToMatch(g, w, a, b, {}, hops);
    }
  }

  // ---- Adding edges that leave the node being looked for ----

  /** A walk that reaches `b` can be cut at its first arrival there. */
  lemma {:induction false} FirstArrival(g: Graph, w: seq<Node>, a: Node, b: Node) returns (c: seq<Node>)
    requires IsWalk(g, w, a, b) && a != b
    ensures IsWalk(g, c, a, b) && |c| <= |w|
    ensures forall i :: 0 <= i < |c| - 1 ==> c[i] != b
    decreases |w|
  {
    if i :| 0 <= i < |w| - 1 && w[i] == b {
      var p := w[..i + 1];
      assert forall m :: 0 <= m < |p| - 1 ==> Hop(p, m) == Hop(w, m);
      c := FirstArrival(g, p, a, b);
    } else {
      c := w;
    }
  }

  /**
   Whether `t` reaches `s` within `k` hops depends only on the edges that do not
   leave `s`.
   */
  lemma OutEdgesOfGoalIrrelevant(g: Graph, h: Graph, t: Node, s: Node, k: nat)
    requires t != s
    requires forall e :: e in g && e.src != s ==> e in h
    requires forall e :: e in h && e.src != s ==> e in g
    ensures Reaches(g, t, s, k) <==> Reaches(h, t, s, k)
  {
    if Reaches(g, t, s, k) {
      ReachesWithoutOutEdges(g, h, t, s, k);
    }
    if Reaches(h, t, s, k) {
      ReachesWithoutOutEdges(h, g, t, s, k);
    }
  }

  lemma ReachesWithoutOutEdges(g: Graph, h: Graph, t: Node, s: Node, k: nat)
    requires t != s && Reaches(g, t, s, k)
    requires forall e :: e in g && e.src != s ==> e in h
    ensures Reaches(h, t, s, k)
  {
    var w :| IsWalk(g, w, t, s) && |w| - 1 <= k;
    var c := FirstArrival(g, w, t, s);
    assert IsWalk(h, c, t, s);
  }

  /** A walk can also be cut at its last departure from where it starts. */
  lemma {:induction false} LastDeparture(g: Graph, w: seq<Node>, a: Node, b: Node) returns (c: seq<Node>)
    requires IsWalk(g, w, a, b) && a != b
    ensures IsWalk(g, c, a, b) && |c| <= |w|
    ensures forall i :: 0 < i < |c| ==> c[i] != a
    decreases |w|
  {
    if i :| 0 < i < |w| && w[i] == a {
      var p := w[i..];
      assert forall m :: 0 <= m < |p| - 1 ==> Hop(p, m) == Hop(w, i + m);
      c := LastDeparture(g, p, a, b);
    } else {
      c := w;
    }
  }

  lemma ReachesWithoutInEdges(g: Graph, h: Graph, t: Node, s: Node, k: nat)
    requires t != s && Reaches(g, t, s, k)
    requires forall e :: e in g && e.tgt != t ==> e in h
    ensures Reaches(h, t, s, k)
  {
    var w :| IsWalk(g, w, t, s) && |w| - 1 <= k;
    var c := LastDeparture(g, w, t, s);
    assert IsWalk(h, c, t, s);
  }

  /** Whether `t` reaches `s` does not depend on the edges that enter `t` either. */
  lemma InEdgesOfStartIrrelevant(g: Graph, h: Graph, t: Node, s: Node, k: nat)
    requires t != s
    requires forall e :: e in g && e.tgt != t ==> e in h
    requires forall e :: e in h && e.tgt != t ==> e in g
    ensures Reaches(g, t, s, k) <==> Reaches(h, t, s, k)
  {
    if Reaches(g, t, s, k) {
      ReachesWithoutInEdges(g, h, t, s, k);
    }
    if Reaches(h, t, s, k) {
      ReachesWithoutInEdges(h, g, t, s, k);
    }
  }

  // ---- One more edge ----

  /** Start a closed walk at its `i`-th node instead. */
  lemma Rotate(g: Graph, w: seq<Node>, a: Node, i: nat) returns (r: seq<Node>)
    requires IsWalk(g, w, a, a) && i < |w| - 1
    ensures IsWalk(g, r, w[i], w[i]) && |r| == |w| && r[1] == w[i + 1]
  {
    r := w[i..] + w[1..i + 1];
    var n := |w| - 1 - i;
    forall m | 0 <= m < |r| - 1
      ensures Hop(r, m) in g
    {
      assert Hop(r, m) == if m < n then Hop(w, i + m) else Hop(w, m - n);
    }
  }

  /** A short cycle that `e` creates comes from a walk that led back to its source. */
  lemma NewCycleNeedsBackPath(g: Graph, e: Edge, k: nat, a: Node)
    requires NoShortCycle(g, k + 1) && e.src != e.tgt
    requires Reaches(g + {e}, a, a, k + 1)
    ensures Reaches(g, e.tgt, e.src, k)
  {
    var h := g + {e};
    var w :| IsWalk(h, w, a, a) && |w| - 1 <= k + 1;
    if Linked(g, w) {
      WalkReaches(g, w, k + 1);
    } else {
      var i :| 0 <= i < |w| - 1 && Hop(w, i) !in g;
      assert Hop(w, i) == e;
      var r := Rotate(h, w, a, i);
      var back := r[1..];
      assert r[|r| - 1] == e.src != e.tgt == r[1];
      assert forall m :: 0 <= m < |back| - 1 ==> Hop(back, m) == Hop(r, m + 1);
      assert IsWalk(h, back, e.tgt, e.src);
      OutEdgesOfGoalIrrelevant(h, g, e.tgt, e.src, k);
    }
  }

  /**
   For a graph without cycles of up to `k + 1` edges, a new edge keeps it so exactly
   when it is no self-edge and its target does not reach its source in `k` hops.
   */
  lemma EdgeKeepsAcyclicIff(g: Graph, e: Edge, k: nat)
    requires NoShortCycle(g, k + 1)
    ensures NoShortCycle(g + {e}, k + 1) <==> e.src != e.tgt && !Reaches(g, e.tgt, e.src, k)
  {
    var h, n := g + {e}, k + 1;
    if e.src == e.tgt {
      var w := [e.src, e.src];
      assert Hop(w, 0) == e;
      assert IsWalk(h, w, e.src, e.src) && Reaches(h, e.src, e.src, n);
    } else if Reaches(g, e.tgt, e.src, k) {
      var w :| IsWalk(g, w, e.tgt, e.src) && |w| - 1 <= k;
      assert IsWalk(h, w, e.tgt, e.src);
      PrependEdge(h, e, w, e.src);
      assert Reaches(h, e.src, e.src, n);
    } else {
      forall a
        ensures !Reaches(h, a, a, n)
      {
        if Reaches(h, a, a, n) {
          NewCycleNeedsBackPath(g, e, k, a);
        }
      }
    }
  }

  // ---- Rings ----

  /** The `i`-th of a family of distinct node names. */
  function Name(i: nat): Node {
    seq(i + 1, _ => 'n')
  }

  function Link(i: nat): Edge {
    Edge(Name(i), Name(i + 1))
  }

  /** The chain 0 -> 1 -> ... -> m. */
  function Chain(m: nat): Graph {
    set i | 0 <= i < m :: Link(i)
  }

  /** A single directed cycle of `n` edges. */
  function Ring(n: nat): Graph
    requires n > 0
  {
    Chain(n - 1) + {Edge(Name(n - 1), Name(0))}
  }

  lemma {:induction false} RingPosition(n: nat, w: seq<Node>, i: nat)
    requires 0 < n && i < n && i < |w| && Linked(Ring(n), w) && |w[0]| <= n
    ensures |w[i]| == if |w[0]| + i <= n then |w[0]| + i else |w[0]| + i - n
  {
    if i > 0 {
      RingPosition(n, w, i - 1);
      assert Hop(w, i - 1) in Ring(n);
    }
  }

  /** A ring of `n` nodes is closed by a walk of `k` hops only if `k` reaches `n`. */
  lemma RingHasOneCycleLength(n: nat, k: nat)
    requires n > 0
    ensures NoShortCycle(Ring(n), k) <==> k < n
  {
    var g := Ring(n);
    if k < n {
      forall a
        ensures !Reaches(g, a, a, k)
      {
        if Reaches(g, a, a, k) {
          var w :| IsWalk(g, w, a, a) && |w| - 1 <= k;
          assert Hop(w, 0) in g;
          RingPosition(n, w, |w| - 1);
        }
      }
    } else {
      var w := seq(n + 1, i requires 0 <= i <= n => if i == n then Name(0) else Name(i));
      forall i | 0 <= i < |w| - 1
        ensures Hop(w, i) in g
      {
        assert i < n - 1 ==> Hop(w, i) == Link(i);
      }
      WalkReaches(g, w, k);
    }
  }

  lemma {:induction false} ChainPosition(m: nat, w: seq<Node>, i: nat)
    requires i < |w| && Linked(Chain(m), w)
    ensures |w[i]| == |w[0]| + i
  {
    if i > 0 {
      ChainPosition(m, w, i - 1);
      assert Hop(w, i - 1) in Chain(m);
    }
  }

  /** In a chain the only way from `i` to `j` takes `j - i` hops. */
  lemma ChainReachesOnlyForward(m: nat, i: nat, j: nat, k: nat)
    requires j <= i || j - i > k
    ensures !Reaches(Chain(m), Name(i), Name(j), k)
  {
    if Reaches(Chain(m), Name(i), Name(j), k) {
      var w :| IsWalk(Chain(m), w, Name(i), Name(j)) && |w| - 1 <= k;
      ChainPosition(m, w, |w| - 1);
    }
  }
}
