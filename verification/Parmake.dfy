/** The main thread of the parallel make: cycle check of every goal, collection of the rules
    into the queue, and the hand-over to the workers. */
module Parmake {
  import opened Digraph
  import opened WorkerPool
  import Sets

  /** v is below a goal among the first n that has no cycle below it. */
  ghost predicate Wanted(g: Graph, goals: seq<Key>, n: nat, v: Key) {
    exists i :: 0 <= i < n && i < |goals| && !CycleReachable(g, goals[i]) && Reaches(g, goals[i], v)
  }

  /** v is a goal among the first n that has a cycle below it. */
  ghost predicate Rejected(g: Graph, goals: seq<Key>, n: nat, v: Key) {
    exists i :: 0 <= i < n && i < |goals| && goals[i] == v && CycleReachable(g, v)
  }

  /** No rule that is wanted can be rejected: a rejected goal below a goal makes that goal
      cyclic too. */
  lemma WantedIsNotRejected(g: Graph, goals: seq<Key>, n: nat, v: Key)
    requires Wanted(g, goals, n, v)
    ensures !CycleReachable(g, v)
  {
    var i :| 0 <= i < n && i < |goals| && !CycleReachable(g, goals[i]) && Reaches(g, goals[i], v);
    if CycleReachable(g, v) {
      CycleReachableBelow(g, goals[i], v);
    }
  }

  /** The state of a rule after the first n goals. */
  ghost function Verdict(g: Graph, goals: seq<Key>, n: nat, v: Key): Status {
    if Rejected(g, goals, n, v) then Failed else if Wanted(g, goals, n, v) then Pending else Untouched
  }

  lemma VerdictMeans(g: Graph, goals: seq<Key>, n: nat, v: Key)
    ensures Verdict(g, goals, n, v) == Pending <==> Wanted(g, goals, n, v)
    ensures Verdict(g, goals, n, v) == Failed <==> Rejected(g, goals, n, v)
  {
    if Wanted(g, goals, n, v) {
      WantedIsNotRejected(g, goals, n, v);
    }
  }

  /** One more goal either is rejected itself or adds what it reaches, none of it rejected. */
  lemma VerdictNext(g: Graph, goals: seq<Key>, n: nat, v: Key)
    requires n < |goals|
    ensures Verdict(g, goals, n + 1, v) ==
              if CycleReachable(g, goals[n]) then if v == goals[n] then Failed else Verdict(g, goals, n, v)
              else if Reaches(g, goals[n], v) then Pending else Verdict(g, goals, n, v)
    ensures !CycleReachable(g, goals[n]) && Reaches(g, goals[n], v) ==> Verdict(g, goals, n, v) != Failed
    ensures CycleReachable(g, v) ==> Verdict(g, goals, n, v) != Pending
  {
    if Wanted(g, goals, n, v) {
      WantedIsNotRejected(g, goals, n, v);
    }
    assert Wanted(g, goals, n + 1, v) <==>
           Wanted(g, goals, n, v) || (!CycleReachable(g, goals[n]) && Reaches(g, goals[n], v));
    assert Rejected(g, goals, n + 1, v) <==>
           Rejected(g, goals, n, v) || (goals[n] == v && CycleReachable(g, v));
    if Reaches(g, goals[n], v) && CycleReachable(g, v) {
      CycleReachableBelow(g, goals[n], v);
    }
  }

  class Make {
    const graph: MarkedGraph
    const commands: map<Key, Rule>
    var state: map<Key, Status>
    var rules: seq<Key>
    var created: bool

    constructor (graph: MarkedGraph, commands: map<Key, Rule>)
      ensures this.graph == graph && this.commands == commands
      ensures state == map v | v in graph.edges :: Untouched
      ensures rules == [] && !created
    {
      this.graph, this.commands := graph, commands;
      state := map v | v in graph.edges :: Untouched;
      rules, created := [], false;
    }

    ghost function ThePlan(): Plan
      reads this, graph
    {
      Plan(graph.edges, commands, rules)
    }

    /** The queue is ordered and holds exactly the pending rules. */
    ghost predicate Valid()
      reads this, graph
    {
      && Closed(graph.edges)
      && state.Keys == graph.edges.Keys
      && ThePlan().Ordered()
      && (forall v :: v in graph.edges ==> (v in rules <==> state[v] == Pending))
      && (rules != [] ==> created)
    }

    /** Post-order walk below a goal that has no cycle below it: afterwards the queue also holds
        everything the goal reaches, and nothing else has been touched. */
    method CollectRules(goal: Key)
      requires Valid() && goal in graph.edges && !CycleReachable(graph.edges, goal)
      requires forall v :: v in graph.edges && Reaches(graph.edges, goal, v) ==> state[v] in {Untouched, Pending}
      modifies this`state, this`rules, this`created
      ensures Valid() && created
      ensures old(rules) <= rules
      ensures forall v :: v in graph.edges ==>
                state[v] == if Reaches(graph.edges, goal, v) then Pending else old(state[v])
      decreases |Reach(graph.edges, goal)|
    {
      created := true;
      ghost var g := graph.edges;
      var neighbours := graph.edges[goal];
      for i := 0 to |neighbours|
        invariant Valid() && created && old(rules) <= rules
        invariant forall v :: v in g ==>
                    state[v] == if Below(g, neighbours, i, v) then Pending else old(state[v])
      {
        var u := neighbours[i];
        BelowNeighbour(g, goal, u);
        label before:
        CollectRules(u);
        forall v | v in g
          ensures state[v] == if Below(g, neighbours, i + 1, v) then Pending else old(state[v])
        {
          BelowNext(g, neighbours, i, v);
        }
      }
      GoalOrBelow(g, goal);
      forall i | 0 <= i < |neighbours| ensures neighbours[i] in rules {
        ReachesSelf(g, neighbours[i]);
        assert Below(g, neighbours, |neighbours|, neighbours[i]);
      }
      if state[goal] == Untouched {
        OrderedPush(ThePlan(), goal);
        rules := rules + [goal];
        state := state[goal := Pending];
      }
    }

    /** Marks a goal with a cycle below it as failed, and collects any other. */
    method TakeGoal(goal: Key)
      requires Valid() && graph.marks == {} && created == (rules != []) && goal in graph.edges
      requires CycleReachable(graph.edges, goal) ==> state[goal] != Pending
      requires !CycleReachable(graph.edges, goal) ==>
                 forall v :: v in graph.edges && Reaches(graph.edges, goal, v) ==> state[v] in {Untouched, Pending}
      modifies this`state, this`rules, this`created, graph`marks
      ensures Valid() && graph.marks == {} && created == (rules != [])
      ensures forall v :: v in graph.edges ==>
                state[v] == if CycleReachable(graph.edges, goal) then if v == goal then Failed else old(state[v])
                            else if Reaches(graph.edges, goal, v) then Pending else old(state[v])
    {
      var hit := graph.IsCyclic(goal);
      if hit {
        state := state[goal := Failed];
      } else {
        CollectRules(goal);
        ReachesSelf(graph.edges, goal);
        assert goal in rules;
      }
    }

    /** Takes the goals one after the other. */
    method TakeGoals(goals: seq<Key>)
      requires Valid() && !created && graph.marks == {}
      requires forall i :: 0 <= i < |goals| ==> goals[i] in graph.edges
      requires forall v :: v in graph.edges ==> state[v] == Untouched
      modifies this`state, this`rules, this`created, graph`marks
      ensures Valid() && graph.marks == {} && created == (rules != [])
      ensures forall v :: v in graph.edges ==> state[v] == Verdict(graph.edges, goals, |goals|, v)
    {
      ghost var g := graph.edges;
      for i := 0 to |goals|
        invariant Valid() && graph.marks == {} && created == (rules != [])
        invariant forall v :: v in g ==> state[v] == Verdict(g, goals, i, v)
      {
        forall v | v in g {
          VerdictNext(g, goals, i, v);
        }
        TakeGoal(goals[i]);
      }
    }

    /** The whole main thread up to the creation of the workers. The queued rules are exactly those
        below a goal without a cycle, each once and after its dependencies; the goals with a cycle
        are marked failed; without any rule to run no worker is started. */
    method Parmake(root: Key, threads: nat) returns (started: bool, pool: Pool)
      requires Valid() && !created && root in graph.edges && graph.marks == {}
      requires forall v :: v in graph.edges ==> state[v] == Untouched
      modifies this`state, this`rules, this`created, graph`marks
      ensures Valid() && graph.marks == {}
      ensures forall v :: v in graph.edges ==>
                var goals := graph.edges[root];
                && (v in rules <==> Wanted(graph.edges, goals, |goals|, v))
                && (state[v] == Failed <==> Rejected(graph.edges, goals, |goals|, v))
      ensures started <==> rules != []
      ensures started ==> Startable(ThePlan(), state) && pool == Start(ThePlan(), state, threads)
    {
      var goals := graph.edges[root];
      TakeGoals(goals);
      forall v | v in graph.edges {
        VerdictMeans(graph.edges, goals, |goals|, v);
      }
      started := created;
      pool := Start(Plan(graph.edges, commands, rules), state, threads);
    }
  }

  /** A rule may be queued once all its dependencies are. */
  lemma OrderedPush(p: Plan, v: Key)
    requires p.Ordered() && v in p.g && v !in p.order
    requires forall i :: 0 <= i < |p.Deps(v)| ==> p.Deps(v)[i] in p.order
    ensures p.(order := p.order + [v]).Ordered()
  {
    var q := p.(order := p.order + [v]);
    forall j, i | 0 <= j < |q.order| && 0 <= i < |q.Deps(q.order[j])| ensures q.Deps(q.order[j])[i] in q.order[..j] {
      var u := q.order[j];
      if j < |p.order| {
        assert u == p.order[j] && p.Deps(u)[i] in p.order[..j];
        assert q.order[..j] == p.order[..j];
      } else {
        assert u == v && q.order[..j] == p.order && p.Deps(v)[i] in p.order;
      }
    }
  }

  ghost predicate Below(g: Graph, neighbours: seq<Key>, n: nat, v: Key) {
    exists i :: 0 <= i < n && i < |neighbours| && Reaches(g, neighbours[i], v)
  }

  lemma BelowNext(g: Graph, neighbours: seq<Key>, n: nat, v: Key)
    requires n < |neighbours|
    ensures Below(g, neighbours, n + 1, v) <==> Below(g, neighbours, n, v) || Reaches(g, neighbours[n], v)
  {
  }

  /** A neighbour of a vertex without a cycle below it has none either, and reaches less. */
  lemma BelowNeighbour(g: Graph, goal: Key, u: Key)
    requires Closed(g) && Edge(g, goal, u) && !CycleReachable(g, goal)
    ensures !CycleReachable(g, u) && |Reach(g, u)| < |Reach(g, goal)|
    ensures forall v :: Reaches(g, u, v) ==> Reaches(g, goal, v)
  {
    ReachesEdge(g, goal, u);
    ReachesSelf(g, goal);
    if CycleReachable(g, u) {
      CycleReachableBelow(g, goal, u);
    }
    ReachShrinks(g, goal, u);
    Sets.Smaller(Reach(g, u), Reach(g, goal));
    forall v | Reaches(g, u, v) ensures Reaches(g, goal, v) {
      ReachesTransitive(g, goal, u, v);
    }
  }

  /** What a vertex reaches is itself and what its neighbours reach; without a cycle the
      neighbours do not reach it. */
  lemma GoalOrBelow(g: Graph, goal: Key)
    requires Closed(g) && goal in g && !CycleReachable(g, goal)
    ensures forall v :: Reaches(g, goal, v) <==> v == goal || Below(g, g[goal], |g[goal]|, v)
    ensures !Below(g, g[goal], |g[goal]|, goal)
  {
    ReachesSelf(g, goal);
    forall v | Reaches(g, goal, v) && v != goal ensures Below(g, g[goal], |g[goal]|, v) {
      var u := ReachesByNeighbour(g, goal, v);
      var i :| 0 <= i < |g[goal]| && g[goal][i] == u;
    }
    forall v, i | 0 <= i < |g[goal]| && Reaches(g, g[goal][i], v) ensures Reaches(g, goal, v) && v != goal {
      BelowNeighbour(g, goal, g[goal][i]);
      ReachShrinks(g, goal, g[goal][i]);
      assert goal in Reach(g, goal);
      if v == goal {
        assert goal in Reach(g, g[goal][i]);
        NoWayBack(g, goal, g[goal][i]);
      }
    }
  }

  lemma NoWayBack(g: Graph, v: Key, u: Key)
    requires Edge(g, v, u) && Reaches(g, u, v)
    ensures OnCycle(g, v)
  {
    var p :| WalkFromTo(g, p, u, v);
    WalkJoin(g, [v, u], p, v, u, v);
  }
}
