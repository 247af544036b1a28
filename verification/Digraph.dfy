/** Finite directed graphs, and the in-place cycle search that both the parallel
    make and the lock manager run over them. A vertex is named by its key. */
module Digraph {
  import Sets

  type Key = nat
  type Graph = map<Key, seq<Key>>

  /** Every neighbour is a vertex. */
  ghost predicate Closed(g: Graph) {
    forall u, i :: u in g && 0 <= i < |g[u]| ==> g[u][i] in g
  }

  ghost predicate Edge(g: Graph, u: Key, v: Key) {
    u in g && v in g[u]
  }

  ghost predicate Walk(g: Graph, p: seq<Key>) {
    && |p| > 0
    && p[0] in g
    && forall i :: 0 <= i < |p| - 1 ==> Edge(g, p[i], p[i + 1])
  }

  ghost predicate WalkFromTo(g: Graph, p: seq<Key>, u: Key, v: Key) {
    Walk(g, p) && p[0] == u && p[|p| - 1] == v
  }

  ghost predicate Reaches(g: Graph, u: Key, v: Key) {
    exists p :: WalkFromTo(g, p, u, v)
  }

  /** There is a walk of at least one edge from v back to v. */
  ghost predicate OnCycle(g: Graph, v: Key) {
    exists p :: WalkFromTo(g, p, v, v) && |p| > 1
  }

  ghost predicate CycleReachable(g: Graph, v: Key) {
    exists u :: Reaches(g, v, u) && OnCycle(g, u)
  }

  ghost predicate Acyclic(g: Graph) {
    forall v :: !OnCycle(g, v)
  }

  lemma WalkStaysInside(g: Graph, p: seq<Key>, i: nat)
    requires Closed(g) && Walk(g, p) && i < |p|
    ensures p[i] in g
  {
    if i > 0 {
      assert Edge(g, p[i - 1], p[i]);
    }
  }

  lemma WalkSlice(g: Graph, p: seq<Key>, i: nat, j: nat)
    requires Closed(g) && Walk(g, p) && i < j <= |p|
    ensures Walk(g, p[i..j])
  {
    WalkStaysInside(g, p, i);
    var q := p[i..j];
    forall k | 0 <= k < |q| - 1 ensures Edge(g, q[k], q[k + 1]) {
      assert Edge(g, p[i + k], p[i + k + 1]);
    }
  }

  lemma WalkJoin(g: Graph, p: seq<Key>, q: seq<Key>, u: Key, v: Key, w: Key)
    requires WalkFromTo(g, p, u, v) && WalkFromTo(g, q, v, w)
    ensures WalkFromTo(g, p + q[1..], u, w)
    ensures |p + q[1..]| == |p| + |q| - 1
  {
    var r := p + q[1..];
    forall k | 0 <= k < |r| - 1 ensures Edge(g, r[k], r[k + 1]) {
      if k < |p| - 1 {
        assert Edge(g, p[k], p[k + 1]);
      } else {
        var m := k - (|p| - 1);
        assert r[k] == q[m] && r[k + 1] == q[m + 1];
        assert Edge(g, q[m], q[m + 1]);
      }
    }
  }

  lemma ReachesSelf(g: Graph, v: Key)
    requires v in g
    ensures Reaches(g, v, v)
  {
    assert WalkFromTo(g, [v], v, v);
  }

  lemma ReachesEdge(g: Graph, u: Key, v: Key)
    requires Edge(g, u, v)
    ensures Reaches(g, u, v)
  {
    assert WalkFromTo(g, [u, v], u, v);
  }

  lemma ReachesTransitive(g: Graph, u: Key, v: Key, w: Key)
    requires Reaches(g, u, v) && Reaches(g, v, w)
    ensures Reaches(g, u, w)
  {
    var p :| WalkFromTo(g, p, u, v);
    var q :| WalkFromTo(g, q, v, w);
    WalkJoin(g, p, q, u, v, w);
  }

  /** A vertex other than v that v reaches is reached through a neighbour of v. */
  lemma ReachesByNeighbour(g: Graph, v: Key, w: Key) returns (u: Key)
    requires Closed(g) && Reaches(g, v, w) && v != w
    ensures Edge(g, v, u) && Reaches(g, u, w)
  {
    var p :| WalkFromTo(g, p, v, w);
    u := p[1];
    assert Edge(g, p[0], p[1]);
    WalkSlice(g, p, 1, |p|);
    assert WalkFromTo(g, p[1..|p|], u, w);
  }

  ghost function Reach(g: Graph, v: Key): set<Key> {
    set u | u in g && Reaches(g, v, u)
  }

  /** Going down an edge from a vertex that is on no cycle leaves that vertex behind,
      so the set of reachable vertices shrinks: the measure of every descent. */
  lemma ReachShrinks(g: Graph, v: Key, u: Key)
    requires Closed(g) && Edge(g, v, u) && !OnCycle(g, v)
    ensures Reach(g, u) < Reach(g, v)
  {
    ReachesEdge(g, v, u);
    forall w | w in Reach(g, u) ensures w in Reach(g, v) {
      ReachesTransitive(g, v, u, w);
    }
    ReachesSelf(g, v);
    if Reaches(g, u, v) {
      var p :| WalkFromTo(g, p, u, v);
      WalkJoin(g, [v, u], p, v, u, v);
      assert OnCycle(g, v);
    }
    assert v in Reach(g, v) && v !in Reach(g, u);
  }

  lemma CycleReachableBelow(g: Graph, v: Key, u: Key)
    requires Reaches(g, v, u) && CycleReachable(g, u)
    ensures CycleReachable(g, v)
  {
    var w :| Reaches(g, u, w) && OnCycle(g, w);
    ReachesTransitive(g, v, u, w);
  }

  /** A walk from v ends in a marked vertex or in a vertex it has visited before:
      what the search looks for when the vertices in marks are already marked. */
  ghost predicate HitWalk(g: Graph, marks: set<Key>, v: Key, p: seq<Key>) {
    && Walk(g, p)
    && p[0] == v
    && (p[|p| - 1] in marks || p[|p| - 1] in p[..|p| - 1])
  }

  ghost predicate Hits(g: Graph, marks: set<Key>, v: Key) {
    exists p :: HitWalk(g, marks, v, p)
  }

  lemma HitsUp(g: Graph, marks: set<Key>, v: Key, u: Key)
    requires Edge(g, v, u) && Hits(g, marks + {v}, u)
    ensures Hits(g, marks, v)
  {
    var q :| HitWalk(g, marks + {v}, u, q);
    var p := [v] + q;
    forall k | 0 <= k < |p| - 1 ensures Edge(g, p[k], p[k + 1]) {
      if k > 0 {
        assert Edge(g, q[k - 1], q[k]);
      }
    }
    assert p[..|p| - 1] == [v] + q[..|q| - 1];
    assert HitWalk(g, marks, v, p);
  }

  lemma HitsDown(g: Graph, marks: set<Key>, v: Key)
    requires Closed(g) && Hits(g, marks, v) && v !in marks
    ensures exists u :: Edge(g, v, u) && Hits(g, marks + {v}, u)
  {
    var p :| HitWalk(g, marks, v, p);
    var u := p[1];
    assert Edge(g, p[0], p[1]);
    WalkSlice(g, p, 1, |p|);
    var q := p[1..|p|];
    assert p[..|p| - 1] == [v] + q[..|q| - 1];
    assert HitWalk(g, marks + {v}, u, q);
  }

  /** With no mark set, what the search looks for is a reachable cycle. */
  lemma HitsIsCycleReachable(g: Graph, v: Key)
    requires Closed(g)
    ensures Hits(g, {}, v) <==> CycleReachable(g, v)
  {
    if Hits(g, {}, v) {
      var p :| HitWalk(g, {}, v, p);
      var n := |p| - 1;
      var i :| 0 <= i < n && p[..n][i] == p[n];
      WalkSlice(g, p, 0, i + 1);
      assert WalkFromTo(g, p[0..i + 1], v, p[n]);
      WalkSlice(g, p, i, |p|);
      assert WalkFromTo(g, p[i..|p|], p[n], p[n]);
      assert Reaches(g, v, p[n]) && OnCycle(g, p[n]);
    }
    if CycleReachable(g, v) {
      var u :| Reaches(g, v, u) && OnCycle(g, u);
      var p :| WalkFromTo(g, p, v, u);
      var q :| WalkFromTo(g, q, u, u) && |q| > 1;
      WalkJoin(g, p, q, v, u, u);
      var r := p + q[1..];
      assert r[..|r| - 1][|p| - 1] == u;
      assert HitWalk(g, {}, v, r);
    }
  }

  /** A graph whose vertices carry a mark each. */
  class MarkedGraph {
    var edges: Graph
    var marks: set<Key>

    constructor (g: Graph)
      ensures edges == g && marks == {}
    {
      edges, marks := g, {};
    }

    /** The recursive search. A hit clears the mark of the ancestor it runs into, and that
        ancestor clears its mark again on the way out; no call is made after a hit, so
        the missing mark is never missed. */
    method Search(v: Key) returns (hit: bool)
      requires v in edges && Closed(edges)
      modifies this`marks
      ensures hit <==> Hits(edges, old(marks), v)
      ensures if hit then marks <= old(marks) else marks == old(marks)
      ensures hit && v in old(marks) ==> v !in marks
      decreases |edges.Keys - marks|
    {
      if v in marks {
        assert HitWalk(edges, marks, v, [v]);
        marks := marks - {v};
        return true;
      }
      var neighbours := edges[v];
      if |neighbours| == 0 {
        if Hits(edges, marks, v) {
          HitsDown(edges, marks, v);
        }
        return false;
      }
      ghost var before := marks;
      marks := marks + {v};
      assert edges.Keys - marks < edges.Keys - before;
      Sets.Smaller(edges.Keys - marks, edges.Keys - before);
      hit := false;
      for i := 0 to |neighbours|
        invariant if hit then marks <= before + {v} else marks == before + {v}
        invariant hit ==> Hits(edges, before, v)
        invariant !hit ==> forall j :: 0 <= j < i ==> !Hits(edges, before + {v}, neighbours[j])
      {
        if !hit {
          hit := Search(neighbours[i]);
          if hit {
            HitsUp(edges, before, v, neighbours[i]);
          }
        }
      }
      if !hit && Hits(edges, before, v) {
        HitsDown(edges, before, v);
      }
      marks := marks - {v};
    }

    /** The search as it is called from outside, where no mark is set: it reports exactly the
        reachable cycles and leaves every mark clear. */
    method IsCyclic(v: Key) returns (hit: bool)
      requires v in edges && Closed(edges) && marks == {}
      modifies this`marks
      ensures hit <==> CycleReachable(edges, v)
      ensures marks == {}
    {
      hit := Search(v);
      HitsIsCycleReachable(edges, v);
    }
  }
}
