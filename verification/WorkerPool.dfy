/** The worker threads of the parallel make, as a machine whose steps are the shared-memory
    accesses of one worker. A run is a schedule: a list of choices of who moves next. */
module WorkerPool {
  import opened Digraph
  import opened Monitors

  /** rule->state: 0, -1, 3, 1 and 2 in this order. */
  datatype Status = Untouched | Pending | Running | Done | Failed {
    predicate Finished() { Done? || Failed? }
  }

  /** What running a rule does: whether its commands have to run, and their exit codes. */
  datatype Rule = Rule(needRun: bool, exits: seq<int>)

  datatype Item = Job(key: Key) | Sentinel

  /** Where a worker stands in its loop, with the rule it has pulled and the index of the
      dependency, or of the command, it is at. */
  datatype Worker =
    | Pulling
    | Checking(t: Key)
    | TestPending(t: Key, i: nat)
    | TestRunning(t: Key, i: nat)
    | GoingToSleep(t: Key, i: nat)
    | Asleep(t: Key, i: nat, signalled: bool)
    | TestFailed(t: Key, i: nat)
    | Refusing(t: Key)
    | Starting(t: Key)
    | Executing(t: Key, k: nat)
    | Announcing
    | Exiting
    | Exited
  {
    predicate Holds(v: Key) {
      match this
      case Pulling => false
      case Announcing => false
      case Exiting => false
      case Exited => false
      case _ => t == v
    }
  }

  /** A rule graph with its rules, and the order in which the rules were queued. */
  datatype Plan = Plan(g: Graph, rules: map<Key, Rule>, order: seq<Key>) {
    function Deps(v: Key): seq<Key> { if v in g then g[v] else [] }
    function RuleOf(v: Key): Rule { if v in rules then rules[v] else Rule(false, []) }
    function Commands(v: Key): seq<int> { if RuleOf(v).needRun then RuleOf(v).exits else [] }

    /** Every queued rule is a vertex, is queued once, and comes after its dependencies. */
    ghost predicate Ordered() {
      && (forall j :: 0 <= j < |order| ==> order[j] in g)
      && (forall i, j :: 0 <= i < j < |order| ==> order[i] != order[j])
      && (forall j, i :: 0 <= j < |order| && 0 <= i < |Deps(order[j])| ==> Deps(order[j])[i] in order[..j])
    }
  }

  /** The shared memory and the workers; ran counts the commands of each rule that have run. */
  datatype Pool = Pool(status: map<Key, Status>, queue: seq<Item>, workers: seq<Worker>, ran: map<Key, nat>) {
    function StatusOf(v: Key): Status { if v in status then status[v] else Untouched }
    function Ran(v: Key): nat { if v in ran then ran[v] else 0 }

    function At(w: nat, pc: Worker): Pool
      requires w < |workers|
    { this.(workers := workers[w := pc]) }

    function Marked(w: nat, v: Key, st: Status, pc: Worker): Pool
      requires w < |workers|
    { this.(status := status[v := st], workers := workers[w := pc]) }
  }

  function Jobs(order: seq<Key>): seq<Item> {
    seq(|order|, i requires 0 <= i < |order| => Job(order[i]))
  }

  /** The pool as it is when the worker threads are created. */
  function Start(p: Plan, status: map<Key, Status>, threads: nat): Pool {
    Pool(status, Jobs(p.order) + [Sentinel], seq(threads, _ => Pulling), map[])
  }

  ghost predicate Startable(p: Plan, status: map<Key, Status>) {
    p.Ordered() && forall j :: 0 <= j < |p.order| ==> p.order[j] in status && status[p.order[j]] == Pending
  }

  function Signal(pc: Worker): Worker {
    if pc.Asleep? then pc.(signalled := true) else pc
  }

  predicate Enabled(s: Pool, w: nat) {
    && w < |s.workers|
    && match s.workers[w]
       case Pulling => s.queue != []
       case Asleep(_, _, signalled) => signalled
       case Exited => false
       case _ => true
  }

  /** One step of worker w. */
  function Next(p: Plan, s: Pool, w: nat): (r: Pool)
    requires Enabled(s, w)
    ensures |r.workers| == |s.workers|
  {
    match s.workers[w]
    case Pulling =>
      var rest := s.(queue := s.queue[1..]);
      if s.queue[0].Job? then rest.At(w, Checking(s.queue[0].key)) else rest.At(w, Exiting)
    case Checking(t) =>
      if s.StatusOf(t) != Pending then s.At(w, Pulling) else s.At(w, TestPending(t, 0))
    case TestPending(t, i) =>
      if i >= |p.Deps(t)| then s.At(w, Starting(t))
      else if s.StatusOf(p.Deps(t)[i]) == Pending then s.At(w, GoingToSleep(t, i))
      else s.At(w, TestRunning(t, i))
    case TestRunning(t, i) =>
      if i < |p.Deps(t)| && s.StatusOf(p.Deps(t)[i]) == Running then s.At(w, GoingToSleep(t, i))
      else s.At(w, TestFailed(t, i))
    case GoingToSleep(t, i) => s.At(w, Asleep(t, i, false))
    case Asleep(t, i, _) => s.At(w, TestPending(t, i))
    case TestFailed(t, i) =>
      if i < |p.Deps(t)| && s.StatusOf(p.Deps(t)[i]) == Failed then s.At(w, Refusing(t))
      else s.At(w, TestPending(t, i + 1))
    case Refusing(t) => s.Marked(w, t, Failed, Announcing)
    case Starting(t) => s.Marked(w, t, Running, Executing(t, 0))
    case Executing(t, k) =>
      if k >= |p.Commands(t)| then s.Marked(w, t, Done, Announcing)
      else
        var after := s.(ran := s.ran[t := k + 1]);
        if p.Commands(t)[k] != 0 then after.Marked(w, t, Failed, Announcing) else after.At(w, Executing(t, k + 1))
    case Announcing => s.(workers := Broadcast(s.workers, Signal)[w := Pulling])
    case Exiting => s.(queue := s.queue + [Sentinel]).At(w, Exited)
    case Exited => s
  }

  /** Who moves next; a sleeper may also wake without having been signalled. */
  datatype Choice = Step(w: nat) | Spurious(w: nat)

  predicate CanWake(s: Pool, w: nat) {
    w < |s.workers| && s.workers[w].Asleep? && !s.workers[w].signalled
  }

  function Apply(p: Plan, s: Pool, ch: Choice): (r: Pool)
    ensures |r.workers| == |s.workers|
  {
    match ch
    case Step(w) => if Enabled(s, w) then Next(p, s, w) else s
    case Spurious(w) => if CanWake(s, w) then s.At(w, Signal(s.workers[w])) else s
  }

  function Run(p: Plan, s: Pool, schedule: seq<Choice>): (r: Pool)
    ensures |r.workers| == |s.workers|
    decreases |schedule|
  {
    if schedule == [] then s else Run(p, Apply(p, s, schedule[0]), schedule[1..])
  }

  ghost predicate AllExited(s: Pool) {
    forall w :: 0 <= w < |s.workers| ==> s.workers[w] == Exited
  }

  /** The sequential meaning of a rule: it succeeds when all its dependencies do and
      every command that has to run exits with 0. */
  ghost predicate Succeeds(p: Plan, v: Key)
    requires p.Ordered() && v in p.order
    decreases Pos(p.order, v)
  {
    && (forall i :: 0 <= i < |p.Deps(v)| ==> Succeeds(p, Dep(p, v, i)))
    && (forall k :: 0 <= k < |p.Commands(v)| ==> p.Commands(v)[k] == 0)
  }

  ghost predicate DepsSucceed(p: Plan, v: Key)
    requires p.Ordered() && v in p.order
  {
    forall i :: 0 <= i < |p.Deps(v)| ==> Succeeds(p, Dep(p, v, i))
  }

  ghost function Outcome(p: Plan, v: Key): Status
    requires p.Ordered() && v in p.order
  {
    if Succeeds(p, v) then Done else Failed
  }

  /** How many commands a list of exit codes lets run: up to and with the first failure. */
  function RunLength(exits: seq<int>): nat {
    if exits == [] then 0 else if exits[0] != 0 then 1 else 1 + RunLength(exits[1..])
  }

  ghost function CommandsRun(p: Plan, v: Key): nat
    requires p.Ordered() && v in p.order
  {
    if DepsSucceed(p, v) then RunLength(p.Commands(v)) else 0
  }

  ghost function Pos(order: seq<Key>, v: Key): nat
    requires v in order
    ensures Pos(order, v) < |order| && order[Pos(order, v)] == v
  {
    var i :| 0 <= i < |order| && order[i] == v;
    i
  }

  /** Dependency i of a queued rule; it was queued before the rule. */
  ghost function Dep(p: Plan, v: Key, i: nat): (d: Key)
    requires p.Ordered() && v in p.order && i < |p.Deps(v)|
    ensures d in p.order && Pos(p.order, d) < Pos(p.order, v)
  {
    assert p.Deps(v)[i] in p.order[..Pos(p.order, v)];
    p.Deps(v)[i]
  }
}
