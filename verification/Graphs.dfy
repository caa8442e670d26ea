/** Finite directed graphs given by adjacency lists, and reachability in them. */
module Graphs {
  type Graph<V> = map<V, seq<V>>

  ghost predicate Edge<V>(g: Graph<V>, x: V, y: V) {
    x in g && y in g[x]
  }

  /** The successors of `v`: a missing key has none, as with a Python `defaultdict`. */
  function Succ<V>(g: Graph<V>, v: V): (r: seq<V>)
    ensures forall y :: y in r ==> Edge(g, v, y)
    ensures v in g ==> forall y :: y in g[v] ==> y in r
  {
    if v in g then g[v] else []
  }

  ghost predicate IsPath<V>(g: Graph<V>, p: seq<V>) {
    && 0 < |p|
    && forall i :: 0 <= i < |p| - 1 ==> Edge(g, p[i], p[i + 1])
  }

  /** `y` is reachable from `x` by zero or more edges. */
  ghost predicate Reach<V(!new)>(g: Graph<V>, x: V, y: V) {
    exists p: seq<V> :: IsPath(g, p) && p[0] == x && p[|p| - 1] == y
  }

  /** `y` is reachable from `x` by at least one edge. */
  ghost predicate ReachPlus<V(!new)>(g: Graph<V>, x: V, y: V) {
    exists w :: Edge(g, x, w) && Reach(g, w, y)
  }

  ghost predicate Closed<V>(g: Graph<V>, a: set<V>) {
    forall x, y :: x in a && x in g && y in g[x] ==> y in a
  }

  /** Two nodes of one strongly connected component. */
  ghost predicate Mutual<V(!new)>(g: Graph<V>, x: V, y: V) {
    Reach(g, x, y) && Reach(g, y, x)
  }

  lemma ReachRefl<V(!new)>(g: Graph<V>, x: V)
    ensures Reach(g, x, x)
  {
    assert IsPath(g, [x]);
  }

  lemma ReachTrans<V(!new)>(g: Graph<V>, x: V, y: V, z: V)
    requires Reach(g, x, y) && Reach(g, y, z)
    ensures Reach(g, x, z)
  {
    var p :| IsPath(g, p) && p[0] == x && p[|p| - 1] == y;
    var q :| IsPath(g, q) && q[0] == y && q[|q| - 1] == z;
    var r := p + q[1..];
    forall i | 0 <= i < |r| - 1 ensures Edge(g, r[i], r[i + 1]) {
      if i >= |p| - 1 {
        assert r[i] == q[i - (|p| - 1)] && r[i + 1] == q[i + 1 - (|p| - 1)];
      }
    }
    assert IsPath(g, r) && r[0] == x && r[|r| - 1] == z;
  }

  lemma ReachEdge<V(!new)>(g: Graph<V>, x: V, y: V)
    requires Edge(g, x, y)
    ensures Reach(g, x, y)
  {
    assert IsPath(g, [x, y]);
  }

  /** A set closed under the edges cannot be left. */
  lemma {:induction false} PathStays<V>(g: Graph<V>, a: set<V>, p: seq<V>)
    requires IsPath(g, p) && Closed(g, a) && p[0] in a
    ensures p[|p| - 1] in a
    decreases |p|
  {
    if |p| > 1 {
      assert Edge(g, p[0], p[0 + 1]);
      var q := p[1..];
      forall i | 0 <= i < |q| - 1 ensures Edge(g, q[i], q[i + 1]) {
        assert Edge(g, p[i + 1], p[i + 1 + 1]);
      }
      PathStays(g, a, q);
    }
  }

  lemma ReachStays<V(!new)>(g: Graph<V>, a: set<V>, x: V, y: V)
    requires Closed(g, a) && x in a && Reach(g, x, y)
    ensures y in a
  {
    var p :| IsPath(g, p) && p[0] == x && p[|p| - 1] == y;
    PathStays(g, a, p);
  }

  /** Reaching a different node takes at least one edge. */
  lemma ReachFirstEdge<V(!new)>(g: Graph<V>, x: V, y: V)
    requires Reach(g, x, y) && x != y
    ensures ReachPlus(g, x, y)
  {
    var p :| IsPath(g, p) && p[0] == x && p[|p| - 1] == y;
    var q := p[1..];
    forall i | 0 <= i < |q| - 1 ensures Edge(g, q[i], q[i + 1]) {
      assert Edge(g, p[i + 1], p[i + 1 + 1]);
    }
    assert IsPath(g, q) && q[|q| - 1] == y;
    assert Edge(g, x, p[0 + 1]) && Reach(g, p[1], y);
  }
}
