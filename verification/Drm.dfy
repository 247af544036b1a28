/** Locks that refuse a wait which would close a cycle: the resource-allocation graph and the
    three calls that change it. */
module Drm {
  import opened Digraph
  import Sets

  /** The graph with its two kinds of vertices. An edge from a lock goes to its owner, an edge
      from a thread to the lock it waits for. */
  datatype Rag = Rag(g: Graph, locks: set<Key>, threads: set<Key>)

  const Empty := Rag(map[], {}, {})

  ghost predicate Shape(r: Rag) {
    && r.g.Keys == r.locks + r.threads
    && r.locks !! r.threads
    && (forall d :: d in r.locks ==> r.g[d] == [] || (|r.g[d]| == 1 && r.g[d][0] in r.threads))
    && (forall t :: t in r.threads ==> r.g[t] == [] || (|r.g[t]| == 1 && r.g[t][0] in r.locks))
    && (forall t :: t in r.threads && r.g[t] != [] ==> r.g[r.g[t][0]] != [])
  }

  /** One owner a lock, one wait a thread, only owned locks are waited for, and no cycle. */
  ghost predicate Ok(r: Rag) {
    Shape(r) && Acyclic(r.g)
  }

  ghost predicate Waiting(r: Rag, t: Key) {
    t in r.g && r.g[t] != []
  }

  // -- The calls as relations between graphs

  ghost predicate InitStep(r: Rag, d: Key, r': Rag) {
    d !in r.g && r' == Rag(r.g[d := []], r.locks + {d}, r.threads)
  }

  /** A wait by a thread that is not itself waiting: it is refused when the thread owns the lock, and
      when its wait edge would close a cycle; otherwise it owns the lock or waits for it. */
  ghost predicate WaitStep(r: Rag, d: Key, t: Key, ok: bool, r': Rag) {
    && d in r.locks && d in r.g && t !in r.locks && !Waiting(r, t)
    && if r.g[d] == [t] then !ok && r' == r
       else
         && r'.locks == r.locks && r'.threads == r.threads + {t}
         && if r.g[d] == [] then ok && r'.g == r.g[t := []][d := [t]]
            else if Acyclic(r.g[t := [d]]) then ok && r'.g == r.g[t := [d]]
            else !ok && r'.g == r.g[t := []]
  }

  /** The owner releases the lock, to some waiting thread if there is one. Anyone else is told no. */
  ghost predicate PostStep(r: Rag, d: Key, t: Key, ok: bool, r': Rag) {
    && d in r.locks && d in r.g
    && if r.g[d] != [t] then !ok && r' == r
       else
         && ok && r'.locks == r.locks && r'.threads == r.threads
         && if exists w :: Edge(r.g, w, d) then exists w :: Edge(r.g, w, d) && r'.g == r.g[d := [w]][w := []]
            else r'.g == r.g[d := []]
  }

  ghost predicate Step(r: Rag, r': Rag) {
    || (exists d :: InitStep(r, d, r'))
    || (exists d, t, ok :: WaitStep(r, d, t, ok, r'))
    || (exists d, t, ok :: PostStep(r, d, t, ok, r'))
  }

  // -- No call closes a cycle

  lemma ShapeClosed(r: Rag)
    requires Shape(r)
    ensures Closed(r.g)
  {
  }

  lemma CycleGoesOn(g: Graph, p: seq<Key>, v: Key, i: nat)
    requires WalkFromTo(g, p, v, v) && |p| > 1 && i < |p|
    ensures p[i] in g && g[p[i]] != []
  {
    var j := if i < |p| - 1 then i else 0;
    assert Edge(g, p[j], p[j + 1]);
  }

  lemma SameCycle(g: Graph, h: Graph, p: seq<Key>, v: Key)
    requires WalkFromTo(h, p, v, v) && |p| > 1
    requires forall i :: 0 <= i < |p| - 1 && Edge(h, p[i], p[i + 1]) ==> Edge(g, p[i], p[i + 1])
    ensures OnCycle(g, v)
  {
    assert Edge(h, p[0], p[1]);
    assert WalkFromTo(g, p, v, v);
  }

  /** Edges into a vertex that has none out of it close no cycle. */
  lemma SinkClosesNoCycle(g: Graph, h: Graph, w: Key)
    requires Acyclic(g)
    requires forall u, v :: Edge(h, u, v) ==> Edge(g, u, v) || v == w
    requires w in h && h[w] == []
    ensures Acyclic(h)
  {
    if v :| OnCycle(h, v) {
      var p :| WalkFromTo(h, p, v, v) && |p| > 1;
      forall i | 0 <= i < |p| - 1 && Edge(h, p[i], p[i + 1]) ensures Edge(g, p[i], p[i + 1]) {
        CycleGoesOn(h, p, v, i + 1);
      }
      SameCycle(g, h, p, v);
    }
  }

  /** All new edges leave t: a cycle then exists only if t reaches one. */
  lemma NewCycleIsBelow(g: Graph, h: Graph, t: Key)
    requires Acyclic(g) && Closed(h)
    requires forall u, v :: Edge(h, u, v) ==> Edge(g, u, v) || u == t
    ensures Acyclic(h) <==> !CycleReachable(h, t)
  {
    if v :| OnCycle(h, v) {
      var p :| WalkFromTo(h, p, v, v) && |p| > 1;
      if i :| 0 <= i < |p| && p[i] == t {
        WalkSlice(h, p, i, |p|);
        assert WalkFromTo(h, p[i..|p|], t, v);
        assert CycleReachable(h, t);
      } else {
        SameCycle(g, h, p, v);
      }
    }
  }

  /** A vertex without edges changes no walk. */
  lemma IsolatedVertex(g: Graph, v: Key)
    requires Acyclic(g) && (v in g ==> g[v] == [])
    ensures Acyclic(g[v := []])
  {
    SinkClosesNoCycle(g, g[v := []], v);
  }

  /** The search from the waiting thread tells whether its new edge closes a cycle. */
  lemma WaitEdgeCycle(r: Rag, d: Key, t: Key)
    requires Ok(r) && d in r.locks && t !in r.locks && !Waiting(r, t)
    ensures var h := r.g[t := [d]]; Closed(h) && (Acyclic(h) <==> !CycleReachable(h, t))
  {
    ShapeClosed(r);
    NewCycleIsBelow(r.g, r.g[t := [d]], t);
  }

  lemma InitKeepsOk(r: Rag, d: Key, r': Rag)
    requires Ok(r) && InitStep(r, d, r')
    ensures Ok(r')
  {
    IsolatedVertex(r.g, d);
  }

  lemma WaitKeepsOk(r: Rag, d: Key, t: Key, ok: bool, r': Rag)
    requires Ok(r) && WaitStep(r, d, t, ok, r')
    ensures Ok(r')
  {
    IsolatedVertex(r.g, t);
    if r.g[d] == [] {
      SinkClosesNoCycle(r.g, r.g[t := []][d := [t]], t);
    }
  }

  lemma HandOverShape(r: Rag, d: Key, w: Key)
    requires Shape(r) && d in r.locks && Edge(r.g, w, d)
    ensures w in r.threads && w != d && r.g[w] == [d]
    ensures Shape(r.(g := r.g[d := [w]][w := []]))
  {
    assert w in r.threads;
  }

  lemma ReleaseShape(r: Rag, d: Key)
    requires Shape(r) && d in r.locks && !exists w :: Edge(r.g, w, d)
    ensures Shape(r.(g := r.g[d := []]))
  {
    assert forall u :: u in r.threads && r.g[u] != [] && r.g[u][0] == d ==> Edge(r.g, u, d);
  }

  lemma HandOverAcyclic(g: Graph, d: Key, w: Key)
    requires Acyclic(g) && d in g && w in g && w != d
    ensures Acyclic(g[d := [w]][w := []])
  {
    SinkClosesNoCycle(g, g[d := [w]][w := []], w);
  }

  lemma ReleaseAcyclic(g: Graph, d: Key)
    requires Acyclic(g) && d in g
    ensures Acyclic(g[d := []])
  {
    SinkClosesNoCycle(g, g[d := []], d);
  }

  lemma PostKeepsOk(r: Rag, d: Key, t: Key, ok: bool, r': Rag)
    requires Ok(r) && PostStep(r, d, t, ok, r')
    ensures Ok(r')
  {
    if r.g[d] == [t] {
      if exists w :: Edge(r.g, w, d) {
        var w :| Edge(r.g, w, d) && r'.g == r.g[d := [w]][w := []];
        HandOverShape(r, d, w);
        HandOverAcyclic(r.g, d, w);
        assert r' == r.(g := r'.g);
      } else {
        ReleaseShape(r, d);
        ReleaseAcyclic(r.g, d);
        assert r' == r.(g := r'.g);
      }
    }
  }

  lemma EmptyIsOk()
    ensures Ok(Empty)
  {
  }

  lemma StepKeepsOk(r: Rag, r': Rag)
    requires Ok(r) && Step(r, r')
    ensures Ok(r')
  {
    if d :| InitStep(r, d, r') {
      InitKeepsOk(r, d, r');
    } else if d, t, ok :| WaitStep(r, d, t, ok, r') {
      WaitKeepsOk(r, d, t, ok, r');
    } else {
      var d, t, ok :| PostStep(r, d, t, ok, r');
      PostKeepsOk(r, d, t, ok, r');
    }
  }

  /** Safety over all runs: in every state that any sequence of calls reaches, the graph is
      acyclic, each lock has at most one owner and each thread waits for at most one lock. */
  lemma {:induction false} EveryRunIsOk(run: seq<Rag>, i: nat)
    requires i < |run| && run[0] == Empty
    requires forall j :: 0 <= j < |run| - 1 ==> Step(run[j], run[j + 1])
    ensures Ok(run[i])
  {
    if i == 0 {
      EmptyIsOk();
    } else {
      EveryRunIsOk(run, i - 1);
      StepKeepsOk(run[i - 1], run[i]);
    }
  }

  /** No deadlock: from a waiting thread the chain of locks and owners leads to a thread that
      waits for nothing, and that owns a lock. */
  lemma {:induction false} SomebodyCanRun(r: Rag, t: Key) returns (runner: Key, lock: Key)
    requires Ok(r) && t in r.threads && Waiting(r, t)
    ensures runner in r.threads && !Waiting(r, runner) && Reaches(r.g, t, runner)
    ensures lock in r.locks && r.g[lock] == [runner]
    decreases |Reach(r.g, t)|
  {
    ShapeClosed(r);
    lock := r.g[t][0];
    runner := r.g[lock][0];
    assert Edge(r.g, t, lock) && Edge(r.g, lock, runner);
    ReachesEdge(r.g, t, lock);
    ReachesEdge(r.g, lock, runner);
    ReachesTransitive(r.g, t, lock, runner);
    if Waiting(r, runner) {
      ReachShrinks(r.g, t, lock);
      ReachShrinks(r.g, lock, runner);
      Sets.Smaller(Reach(r.g, runner), Reach(r.g, t));
      var first := runner;
      runner, lock := SomebodyCanRun(r, first);
      ReachesTransitive(r.g, t, first, runner);
    }
  }

  // -- The code

  function Without(s: seq<Key>, v: Key): seq<Key> {
    if s == [] then [] else (if s[0] == v then [] else [s[0]]) + Without(s[1..], v)
  }

  lemma WithoutLast(v: Key)
    ensures Without([v], v) == []
  {
  }

  class LockManager {
    const graph: MarkedGraph
    var locks: set<Key>
    var threads: set<Key>
    /** Whether the global mutex is still locked after a call has returned. */
    var mutexHeld: bool

    constructor ()
      ensures fresh(graph) && Valid() && View() == Empty && !mutexHeld
    {
      graph := new MarkedGraph(map[]);
      locks, threads, mutexHeld := {}, {}, false;
      new;
      EmptyIsOk();
    }

    ghost function View(): Rag
      reads this, graph
    {
      Rag(graph.edges, locks, threads)
    }

    ghost predicate Valid()
      reads this, graph
    {
      Ok(View()) && graph.marks == {}
    }

    method Init(drm: Key)
      requires Valid() && !mutexHeld && drm !in graph.edges
      modifies this`locks, graph
      ensures Valid() && InitStep(old(View()), drm, View())
    {
      InitKeepsOk(View(), drm, Rag(graph.edges[drm := []], locks + {drm}, threads));
      graph.edges := graph.edges[drm := []];
      locks := locks + {drm};
    }

    method Post(drm: Key, threadId: Key) returns (ok: bool)
      requires Valid() && !mutexHeld && drm in locks
      modifies graph
      ensures Valid() && PostStep(old(View()), drm, threadId, ok, View())
    {
      ghost var before := View();
      var owners := graph.edges[drm];
      if threadId in graph.edges && |owners| > 0 && owners[0] == threadId {
        assert owners == [threadId];
        Release(drm, threadId);
        PostKeepsOk(before, drm, threadId, true, View());
        return true;
      }
      return false;
    }

    /** Takes the lock from its owner and gives it to a thread that waits for it, if any does. */
    method Release(drm: Key, threadId: Key)
      requires Shape(View()) && drm in locks && graph.edges[drm] == [threadId]
      modifies graph`edges
      ensures PostStep(old(View()), drm, threadId, true, View())
    {
      ghost var before := View();
      WithoutLast(threadId);
      var waiters := set u | u in graph.edges && drm in graph.edges[u];
      assert forall u :: u in waiters <==> Edge(before.g, u, drm);
      graph.edges := graph.edges[drm := Without(graph.edges[drm], threadId)];
      if waiters != {} {
        var w :| w in waiters;
        HandOverShape(before, drm, w);
        HandOver(drm, w);
        assert graph.edges == before.g[drm := [w]][w := []];
      }
    }

    /** Makes w, which waits for the lock, its owner. */
    method HandOver(drm: Key, w: Key)
      requires drm in graph.edges && w in graph.edges && w != drm
      requires graph.edges[drm] == [] && graph.edges[w] == [drm]
      modifies graph`edges
      ensures graph.edges == old(graph.edges)[drm := [w]][w := []]
    {
      WithoutLast(drm);
      graph.edges := graph.edges[drm := graph.edges[drm] + [w]];
      assert graph.edges[drm] == [w];
      graph.edges := graph.edges[w := Without(graph.edges[w], drm)];
    }

    /** The calling thread is not waiting already. A thread that waits for a lock it owns is
        refused without the mutex being released, and this is the only way to keep it. */
    method Wait(drm: Key, threadId: Key) returns (ok: bool)
      requires Valid() && !mutexHeld && drm in locks && threadId !in locks && !Waiting(View(), threadId)
      modifies this, graph
      ensures Valid() && WaitStep(old(View()), drm, threadId, ok, View())
      ensures mutexHeld <==> old(graph.edges[drm] == [threadId])
    {
      ghost var before := View();
      mutexHeld := true;
      var owners := graph.edges[drm];
      if |owners| > 0 && threadId == owners[0] {
        return false;
      }
      if threadId !in graph.edges {
        graph.edges := graph.edges[threadId := []];
        threads := threads + {threadId};
      }
      IsolatedVertex(before.g, threadId);
      assert graph.edges == before.g[threadId := []];
      if |owners| == 0 {
        graph.edges := graph.edges[drm := graph.edges[drm] + [threadId]];
        assert graph.edges[drm] == [threadId];
        WaitKeepsOk(before, drm, threadId, true, View());
        mutexHeld := false;
        return true;
      }
      assert graph.edges[threadId := [drm]] == before.g[threadId := [drm]];
      ok := AddWaitEdge(drm, threadId);
      WaitKeepsOk(before, drm, threadId, ok, View());
      mutexHeld := false;
    }

    /** Adds the wait edge of a thread that has no edge, and takes it back if it closes a cycle. */
    method AddWaitEdge(drm: Key, threadId: Key) returns (ok: bool)
      requires Valid() && drm in locks && threadId in threads && graph.edges[threadId] == []
      modifies graph
      ensures graph.marks == {}
      ensures ok <==> Acyclic(old(graph.edges)[threadId := [drm]])
      ensures graph.edges == if ok then old(graph.edges)[threadId := [drm]] else old(graph.edges)
    {
      ghost var before := View();
      graph.edges := graph.edges[threadId := graph.edges[threadId] + [drm]];
      assert graph.edges[threadId] == [drm];
      assert graph.edges == before.g[threadId := [drm]];
      WaitEdgeCycle(before, drm, threadId);
      var cyclic := graph.IsCyclic(threadId);
      if cyclic {
        WithoutLast(drm);
        graph.edges := graph.edges[threadId := Without(graph.edges[threadId], drm)];
      }
      ok := !cyclic;
    }
  }
}
