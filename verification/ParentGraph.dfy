/**
 The parent relation between roles as a directed graph, with walks, reachability
 and cycles. Names that occur only as parents ("dangling" names) have no edges.
 */
module ParentGraph {

  type Graph = map<string, set<string>>

  ghost predicate Edge(g: Graph, a: string, b: string) {
    a in g && b in g[a]
  }

  ghost predicate Walk(g: Graph, p: seq<string>) {
    && |p| > 0
    && forall i :: 0 <= i < |p| - 1 ==> Edge(g, p[i], p[i + 1])
  }

  ghost predicate WalkBetween(g: Graph, p: seq<string>, a: string, b: string) {
    Walk(g, p) && p[0] == a && p[|p| - 1] == b
  }

  /** `b` is `a` or an ancestor of `a`. */
  ghost predicate Reaches(g: Graph, a: string, b: string) {
    exists p :: WalkBetween(g, p, a, b)
  }

  /** `c` is its own proper ancestor. */
  ghost predicate OnCycle(g: Graph, c: string) {
    exists b :: Edge(g, c, b) && Reaches(g, b, c)
  }

  ghost predicate Acyclic(g: Graph) {
    forall c :: !OnCycle(g, c)
  }

  /** Some cycle can be entered by walking up from `a`. */
  ghost predicate CycleAbove(g: Graph, a: string) {
    exists c :: Reaches(g, a, c) && OnCycle(g, c)
  }

  lemma WalkTail(g: Graph, p: seq<string>)
    requires Walk(g, p) && |p| > 1
    ensures Edge(g, p[0], p[1]) && Walk(g, p[1..])
  {
    assert Edge(g, p[0], p[0 + 1]);
    var q := p[1..];
    forall i | 0 <= i < |q| - 1 ensures Edge(g, q[i], q[i + 1]) {
      assert Edge(g, p[i + 1], p[i + 1 + 1]);
    }
  }

  lemma ReachesSelf(g: Graph, a: string)
    ensures Reaches(g, a, a)
  {
    assert WalkBetween(g, [a], a, a);
  }

  lemma ReachesByEdge(g: Graph, a: string, b: string, c: string)
    requires Edge(g, a, b) && Reaches(g, b, c)
    ensures Reaches(g, a, c)
  {
    var p :| WalkBetween(g, p, b, c);
    var q := [a] + p;
    assert WalkBetween(g, q, a, c);
  }

  lemma ReachesTrans(g: Graph, a: string, b: string, c: string)
    requires Reaches(g, a, b) && Reaches(g, b, c)
    ensures Reaches(g, a, c)
  {
    var p :| WalkBetween(g, p, a, b);
    WalkThenReaches(g, p, c);
  }

  lemma {:induction false} WalkThenReaches(g: Graph, p: seq<string>, c: string)
    requires Walk(g, p) && Reaches(g, p[|p| - 1], c)
    ensures Reaches(g, p[0], c)
    decreases |p|
  {
    if |p| > 1 {
      WalkTail(g, p);
      WalkThenReaches(g, p[1..], c);
      ReachesByEdge(g, p[0], p[1], c);
    }
  }

  /** A walk to somewhere else starts with an edge. */
  lemma FirstEdge(g: Graph, a: string, c: string) returns (b: string)
    requires Reaches(g, a, c) && a != c
    ensures Edge(g, a, b) && Reaches(g, b, c)
  {
    var p :| WalkBetween(g, p, a, c);
    b := p[1];
    WalkTail(g, p);
    assert WalkBetween(g, p[1..], b, c);
  }

  /** A set that contains `a` and is closed under parents contains everything `a` reaches. */
  lemma ClosedContainsReach(g: Graph, closed: set<string>, a: string, c: string)
    requires a in closed && Reaches(g, a, c)
    requires forall x, y :: x in closed && Edge(g, x, y) ==> y in closed
    ensures c in closed
  {
    var p :| WalkBetween(g, p, a, c);
    WalkStaysInside(g, closed, p);
  }

  lemma {:induction false} WalkStaysInside(g: Graph, closed: set<string>, p: seq<string>)
    requires Walk(g, p) && p[0] in closed
    requires forall x, y :: x in closed && Edge(g, x, y) ==> y in closed
    ensures p[|p| - 1] in closed
    decreases |p|
  {
    if |p| > 1 {
      WalkTail(g, p);
      WalkStaysInside(g, closed, p[1..]);
    }
  }

  ghost predicate Subgraph(g: Graph, h: Graph) {
    forall a, b :: Edge(g, a, b) ==> Edge(h, a, b)
  }

  lemma SubgraphReaches(g: Graph, h: Graph, a: string, b: string)
    requires Subgraph(g, h) && Reaches(g, a, b)
    ensures Reaches(h, a, b)
  {
    var p :| WalkBetween(g, p, a, b);
    assert WalkBetween(h, p, a, b);
  }

  lemma SubgraphAcyclic(g: Graph, h: Graph)
    requires Subgraph(g, h) && Acyclic(h)
    ensures Acyclic(g)
  {
    forall c ensures !OnCycle(g, c) {
      if OnCycle(g, c) {
        var b :| Edge(g, c, b) && Reaches(g, b, c);
        SubgraphReaches(g, h, b, c);
        assert OnCycle(h, c);
      }
    }
  }

  /** The two graphs have the same edges except those leaving `n`. */
  ghost predicate DiffersOnlyAt(g: Graph, h: Graph, n: string) {
    forall a, b :: a != n ==> (Edge(g, a, b) <==> Edge(h, a, b))
  }

  /**
   A walk in `h` either uses only edges of `g`, or its part before the first visit to `n`
   does.
   */
  lemma {:induction false} WalkAvoiding(g: Graph, h: Graph, n: string, p: seq<string>)
    requires Walk(h, p) && DiffersOnlyAt(g, h, n)
    ensures || Reaches(g, p[0], p[|p| - 1])
            || (Reaches(g, p[0], n) && Reaches(h, p[0], n) && Reaches(h, n, p[|p| - 1]))
    decreases |p|
  {
    var last := p[|p| - 1];
    if |p| == 1 {
      ReachesSelf(g, last);
    } else if p[0] == n {
      ReachesSelf(g, n);
      ReachesSelf(h, n);
      assert WalkBetween(h, p, n, last);
    } else {
      WalkTail(h, p);
      WalkAvoiding(g, h, n, p[1..]);
      if Reaches(g, p[1], last) {
        ReachesByEdge(g, p[0], p[1], last);
      } else {
        ReachesByEdge(g, p[0], p[1], n);
        ReachesByEdge(h, p[0], p[1], n);
      }
    }
  }

  lemma ReachesAvoiding(g: Graph, h: Graph, n: string, a: string, b: string)
    requires Reaches(h, a, b) && DiffersOnlyAt(g, h, n)
    ensures Reaches(g, a, b) || (Reaches(g, a, n) && Reaches(h, a, n) && Reaches(h, n, b))
  {
    var p :| WalkBetween(h, p, a, b);
    WalkAvoiding(g, h, n, p);
  }

  /**
   After an edit of the links of `n` alone, every cycle runs through `n`, provided the
   graph had no cycle before.
   */
  lemma NewCycleThrough(g: Graph, h: Graph, n: string, c: string)
    requires DiffersOnlyAt(g, h, n) && Acyclic(g) && OnCycle(h, c)
    ensures OnCycle(h, n) && Reaches(h, c, n) && Reaches(h, n, c)
  {
    var b :| Edge(h, c, b) && Reaches(h, b, c);
    ReachesSelf(h, c);
    if c != n {
      ReachesAvoiding(g, h, n, b, c);
      assert !OnCycle(g, c) && Edge(g, c, b);
      assert !Reaches(g, b, c);
      ReachesByEdge(h, c, b, n);
      var m := FirstEdge(h, n, c);
      ReachesTrans(h, m, c, n);
    }
  }

  /**
   Where the path-based search and the self-reachability query agree: on a graph that
   was acyclic before the links of `n` changed.
   */
  lemma CycleChecksAgree(g: Graph, h: Graph, n: string)
    requires DiffersOnlyAt(g, h, n) && Acyclic(g)
    ensures CycleAbove(h, n) <==> OnCycle(h, n)
    ensures Acyclic(h) <==> !OnCycle(h, n)
  {
    if CycleAbove(h, n) {
      var c :| Reaches(h, n, c) && OnCycle(h, c);
      NewCycleThrough(g, h, n, c);
    }
    if OnCycle(h, n) {
      ReachesSelf(h, n);
    }
    if !OnCycle(h, n) {
      forall c ensures !OnCycle(h, c) {
        if OnCycle(h, c) {
          NewCycleThrough(g, h, n, c);
        }
      }
    }
  }

  /** Without that hypothesis they differ: a cycle above `n` that does not pass through `n`. */
  lemma CycleChecksDiffer()
    ensures exists h: Graph, n: string :: CycleAbove(h, n) && !OnCycle(h, n)
  {
    var h: Graph := map["n" := {"c"}, "c" := {"c"}];
    ReachesSelf(h, "c");
    assert Edge(h, "n", "c") && Edge(h, "c", "c");
    assert OnCycle(h, "c");
    ReachesByEdge(h, "n", "c", "c");
    if OnCycle(h, "n") {
      var b :| Edge(h, "n", b) && Reaches(h, b, "n");
      ClosedContainsReach(h, {"c"}, "c", "n");
      assert false;
    }
    assert CycleAbove(h, "n") && !OnCycle(h, "n");
  }
}
