/** What every reachable state of the worker pool satisfies, and what it has computed
    when the workers are gone. */
module PoolSafety {
  import opened Digraph
  import opened WorkerPool
  import opened Monitors

  /** How many rules have been pulled. */
  ghost function Pulled(p: Plan, s: Pool): int {
    if s.queue == [] then |p.order| else |p.order| + 1 - |s.queue|
  }

  /** The one sentinel is at the end of the queue, or with the one worker that pulled it;
      nobody leaves while rules are queued. */
  ghost predicate QueueOk(p: Plan, s: Pool) {
    if s.queue == [] then
      exists w :: HasSentinel(s, w) && forall x :: HasSentinel(s, x) ==> x == w
    else
      && 0 <= Pulled(p, s)
      && s.queue == Jobs(p.order[Pulled(p, s)..]) + [Sentinel]
      && (forall x :: !HasSentinel(s, x))
      && (Pulled(p, s) < |p.order| ==> forall x :: 0 <= x < |s.workers| ==> s.workers[x] != Exited)
  }

  ghost predicate HasSentinel(s: Pool, w: int) {
    0 <= w < |s.workers| && s.workers[w] == Exiting
  }

  ghost predicate Holder(s: Pool, w: int, v: Key) {
    0 <= w < |s.workers| && s.workers[w].Holds(v)
  }

  /** The first n dependencies of v are done. */
  ghost predicate DepsDone(p: Plan, s: Pool, v: Key, n: nat) {
    n <= |p.Deps(v)| && forall i :: 0 <= i < n ==> s.StatusOf(p.Deps(v)[i]) == Done
  }

  ghost predicate Untried(s: Pool, v: Key) {
    s.StatusOf(v) == Pending && s.Ran(v) == 0
  }

  /** What a worker at this point of its loop knows about its rule. */
  ghost predicate WorkerOk(p: Plan, s: Pool, pc: Worker) {
    match pc
    case Pulling => true
    case Announcing => true
    case Exiting => true
    case Exited => true
    case Checking(t) => Untried(s, t)
    case TestPending(t, i) => Untried(s, t) && DepsDone(p, s, t, i)
    case TestRunning(t, i) =>
      Untried(s, t) && DepsDone(p, s, t, i) && i < |p.Deps(t)| && s.StatusOf(p.Deps(t)[i]) != Pending
    case GoingToSleep(t, i) => Untried(s, t) && DepsDone(p, s, t, i) && i < |p.Deps(t)|
    case Asleep(t, i, _) => Untried(s, t) && DepsDone(p, s, t, i) && i < |p.Deps(t)|
    case TestFailed(t, i) =>
      Untried(s, t) && DepsDone(p, s, t, i) && i < |p.Deps(t)| && s.StatusOf(p.Deps(t)[i]).Finished()
    case Refusing(t) => Untried(s, t) && exists i :: 0 <= i < |p.Deps(t)| && s.StatusOf(p.Deps(t)[i]) == Failed
    case Starting(t) => Untried(s, t) && DepsDone(p, s, t, |p.Deps(t)|)
    case Executing(t, k) =>
      && s.StatusOf(t) == Running && s.Ran(t) == k <= |p.Commands(t)|
      && DepsDone(p, s, t, |p.Deps(t)|)
      && forall j :: 0 <= j < k ==> p.Commands(t)[j] == 0
  }

  /** A rule that has not been pulled is pending and unheld; a pulled one that is not
      finished is held; a finished one has its sequential outcome. */
  ghost predicate RuleOk(p: Plan, s: Pool, j: int)
    requires p.Ordered() && 0 <= j < |p.order|
  {
    var v := p.order[j];
    && s.StatusOf(v) != Untouched
    && (j >= Pulled(p, s) ==> Untried(s, v) && forall w :: !Holder(s, w, v))
    && (j < Pulled(p, s) && !s.StatusOf(v).Finished() ==> exists w :: Holder(s, w, v))
    && (s.StatusOf(v).Finished() ==> s.StatusOf(v) == Outcome(p, v) && s.Ran(v) == CommandsRun(p, v))
  }

  ghost predicate Inv(p: Plan, s: Pool) {
    && p.Ordered()
    && QueueOk(p, s)
    && (forall w :: 0 <= w < |s.workers| ==> WorkerOk(p, s, s.workers[w]))
    && (forall w, v :: Holder(s, w, v) ==> v in p.order)
    && (forall w, x, v :: Holder(s, w, v) && Holder(s, x, v) ==> w == x)
    && (forall j :: 0 <= j < |p.order| ==> RuleOk(p, s, j))
  }

  lemma StartInv(p: Plan, status: map<Key, Status>, threads: nat)
    requires Startable(p, status)
    ensures Inv(p, Start(p, status, threads))
  {
    var s := Start(p, status, threads);
    assert p.order[0..] == p.order;
    assert |s.queue| == |p.order| + 1;
  }

  // -- What the finished part of a rule's bookkeeping means

  lemma RunLengthOk(exits: seq<int>, k: nat)
    requires k <= |exits| && forall j :: 0 <= j < k ==> exits[j] == 0
    ensures k == |exits| ==> RunLength(exits) == k
    ensures k < |exits| && exits[k] != 0 ==> RunLength(exits) == k + 1
  {
    if k > 0 {
      RunLengthOk(exits[1..], k - 1);
    }
  }

  lemma DoneDepsSucceed(p: Plan, s: Pool, t: Key)
    requires Inv(p, s) && t in p.order && DepsDone(p, s, t, |p.Deps(t)|)
    ensures DepsSucceed(p, t)
  {
    forall i | 0 <= i < |p.Deps(t)| ensures Succeeds(p, Dep(p, t, i)) {
      DoneSucceeds(p, s, Pos(p.order, Dep(p, t, i)));
    }
  }

  lemma DoneSucceeds(p: Plan, s: Pool, j: int)
    requires p.Ordered() && 0 <= j < |p.order| && RuleOk(p, s, j) && s.StatusOf(p.order[j]) == Done
    ensures Succeeds(p, p.order[j])
  {
  }

  lemma FailedDepFails(p: Plan, s: Pool, t: Key, i: nat)
    requires Inv(p, s) && t in p.order && i < |p.Deps(t)| && s.StatusOf(p.Deps(t)[i]) == Failed
    ensures !DepsSucceed(p, t) && !Succeeds(p, t)
  {
    assert RuleOk(p, s, Pos(p.order, Dep(p, t, i)));
  }

  /** Worker w holds t and only t's bookkeeping changes; t has moved on from its old status. */
  ghost predicate OnlyOwnRule(p: Plan, s: Pool, r: Pool, t: Key) {
    && (forall v :: v != t ==> r.StatusOf(v) == s.StatusOf(v) && r.Ran(v) == s.Ran(v))
    && !s.StatusOf(t).Finished()
    && r.StatusOf(t) != Untouched
    && (s.StatusOf(t) != Pending ==> r.StatusOf(t) != Pending)
  }

  lemma OthersOk(p: Plan, s: Pool, r: Pool, t: Key, pc: Worker)
    requires OnlyOwnRule(p, s, r, t) && WorkerOk(p, s, pc) && !pc.Holds(t)
    ensures WorkerOk(p, r, pc)
  {
  }

  // -- Every step keeps the invariant

  ghost predicate Idle(pc: Worker) {
    pc.Pulling? || pc.Exiting? || pc.Exited?
  }

  ghost predicate Inside(pc: Worker) {
    pc != Exiting && pc != Exited
  }

  /** A worker that only moves on within its own rule. */
  lemma MoveInv(p: Plan, s: Pool, w: nat, pc: Worker)
    requires Inv(p, s) && w < |s.workers| && Inside(s.workers[w]) && Inside(pc)
    requires WorkerOk(p, s, pc) && forall v :: pc.Holds(v) <==> s.workers[w].Holds(v)
    ensures Inv(p, s.At(w, pc))
  {
    var r := s.At(w, pc);
    assert forall x :: HasSentinel(r, x) <==> HasSentinel(s, x);
    assert forall x, v :: Holder(r, x, v) <==> Holder(s, x, v);
    forall x | 0 <= x < |r.workers| ensures WorkerOk(p, r, r.workers[x]) {
      assert WorkerOk(p, s, r.workers[x]);
      RelyOnMemory(p, s, r, r.workers[x]);
    }
    forall j | 0 <= j < |p.order| ensures RuleOk(p, r, j) {
      assert RuleOk(p, s, j);
    }
  }

  /** What a worker knows is about statuses and command counts alone. */
  lemma RelyOnMemory(p: Plan, s: Pool, r: Pool, pc: Worker)
    requires s.status == r.status && s.ran == r.ran && WorkerOk(p, s, pc)
    ensures WorkerOk(p, r, pc)
  {
  }

  lemma PullJobInv(p: Plan, s: Pool, w: nat)
    requires Inv(p, s) && w < |s.workers| && s.workers[w] == Pulling && s.queue != [] && s.queue[0].Job?
    ensures Inv(p, Next(p, s, w))
  {
    var r := Next(p, s, w);
    var m := Pulled(p, s);
    var t := s.queue[0].key;
    assert m < |p.order| && t == p.order[m];
    assert p.order[m..][1..] == p.order[m + 1..];
    assert r.queue == Jobs(p.order[m + 1..]) + [Sentinel];
    assert forall x :: HasSentinel(r, x) <==> HasSentinel(s, x);
    assert forall x, v :: Holder(r, x, v) <==> Holder(s, x, v) || (x == w && v == t);
    assert RuleOk(p, s, m);
    forall x | 0 <= x < |r.workers| ensures WorkerOk(p, r, r.workers[x]) {
      if x != w {
        RelyOnMemory(p, s, r, s.workers[x]);
      }
    }
    forall j | 0 <= j < |p.order| ensures RuleOk(p, r, j) {
      assert RuleOk(p, s, j);
      if j == m {
        assert Holder(r, w, t);
      } else if j < m && !s.StatusOf(p.order[j]).Finished() {
        var x :| Holder(s, x, p.order[j]);
        assert Holder(r, x, p.order[j]);
      }
    }
  }

  lemma SentinelLast(order: seq<Key>)
    ensures (Jobs(order) + [Sentinel])[0].Sentinel? ==> order == []
  {
  }

  lemma PullSentinelInv(p: Plan, s: Pool, w: nat)
    requires Inv(p, s) && w < |s.workers| && s.workers[w] == Pulling && s.queue != [] && s.queue[0].Sentinel?
    ensures Inv(p, Next(p, s, w))
  {
    var r := Next(p, s, w);
    var m := Pulled(p, s);
    SentinelLast(p.order[m..]);
    assert r.queue == [];
    assert forall x :: HasSentinel(r, x) <==> x == w || HasSentinel(s, x);
    assert HasSentinel(r, w);
    SameRules(p, s, r, w);
  }

  lemma ExitInv(p: Plan, s: Pool, w: nat)
    requires Inv(p, s) && w < |s.workers| && s.workers[w] == Exiting
    ensures Inv(p, Next(p, s, w))
  {
    var r := Next(p, s, w);
    assert HasSentinel(s, w);
    assert s.queue == [];
    assert Jobs(p.order[|p.order|..]) == [];
    assert r.queue == [Sentinel];
    assert forall x :: HasSentinel(r, x) <==> HasSentinel(s, x) && x != w;
    SameRules(p, s, r, w);
  }

  /** A worker without a rule stays without one, and the memory and the pulled part of the
      queue stay as they are. */
  lemma SameRules(p: Plan, s: Pool, r: Pool, w: nat)
    requires Inv(p, s) && w < |s.workers| && |r.workers| == |s.workers|
    requires s.status == r.status && s.ran == r.ran && Pulled(p, s) == Pulled(p, r)
    requires forall x :: 0 <= x < |s.workers| && x != w ==> r.workers[x] == s.workers[x]
    requires Idle(s.workers[w]) && Idle(r.workers[w])
    ensures forall x, v :: Holder(r, x, v) <==> Holder(s, x, v)
    ensures forall x :: 0 <= x < |r.workers| ==> WorkerOk(p, r, r.workers[x])
    ensures forall j :: 0 <= j < |p.order| ==> RuleOk(p, r, j)
  {
    assert forall x, v :: Holder(r, x, v) <==> Holder(s, x, v);
    forall x | 0 <= x < |r.workers| ensures WorkerOk(p, r, r.workers[x]) {
      if x != w {
        RelyOnMemory(p, s, r, s.workers[x]);
      }
    }
    forall j | 0 <= j < |p.order| ensures RuleOk(p, r, j) {
      assert RuleOk(p, s, j);
    }
  }

  /** A worker writes the bookkeeping of the rule it holds and keeps holding it. */
  lemma KeepInv(p: Plan, s: Pool, r: Pool, w: nat, t: Key)
    requires Inv(p, s) && Holder(s, w, t) && Holder(r, w, t)
    requires r.workers == s.workers[w := r.workers[w]] && r.queue == s.queue
    requires OnlyOwnRule(p, s, r, t) && !r.StatusOf(t).Finished()
    requires WorkerOk(p, r, r.workers[w])
    ensures Inv(p, r)
  {
    assert forall x :: HasSentinel(r, x) <==> HasSentinel(s, x);
    assert forall x, v :: Holder(r, x, v) <==> Holder(s, x, v);
    forall x | 0 <= x < |r.workers| ensures WorkerOk(p, r, r.workers[x]) {
      if x != w {
        assert !Holder(s, x, t);
        OthersOk(p, s, r, t, s.workers[x]);
      }
    }
    forall j | 0 <= j < |p.order| ensures RuleOk(p, r, j) {
      assert RuleOk(p, s, j);
    }
  }

  /** What a worker that lets go of its rule leaves to the others. */
  lemma FinishWorkers(p: Plan, s: Pool, r: Pool, w: nat, t: Key)
    requires Inv(p, s) && Holder(s, w, t)
    requires r.workers == s.workers[w := Announcing] && OnlyOwnRule(p, s, r, t)
    ensures forall x :: HasSentinel(r, x) <==> HasSentinel(s, x)
    ensures forall x, v :: Holder(r, x, v) <==> Holder(s, x, v) && x != w
    ensures forall x :: 0 <= x < |r.workers| ==> WorkerOk(p, r, r.workers[x])
  {
    forall x | 0 <= x < |r.workers| ensures WorkerOk(p, r, r.workers[x]) {
      if x != w {
        assert !Holder(s, x, t);
        OthersOk(p, s, r, t, s.workers[x]);
      }
    }
  }

  lemma FinishRule(p: Plan, s: Pool, r: Pool, w: nat, t: Key, j: int)
    requires p.Ordered() && t in p.order && 0 <= j < |p.order| && RuleOk(p, s, j)
    requires Holder(s, w, t) && r.queue == s.queue && OnlyOwnRule(p, s, r, t)
    requires forall x, v :: Holder(r, x, v) <==> Holder(s, x, v) && x != w
    requires r.StatusOf(t) == Outcome(p, t) && r.Ran(t) == CommandsRun(p, t)
    ensures RuleOk(p, r, j)
  {
    var v := p.order[j];
    if v != t && j < Pulled(p, s) && !s.StatusOf(v).Finished() {
      var x :| Holder(s, x, v);
      assert Holder(r, x, v);
    }
  }

  /** A worker finishes the rule it holds, with the right outcome, and lets go of it. */
  lemma FinishInv(p: Plan, s: Pool, r: Pool, w: nat, t: Key)
    requires Inv(p, s) && Holder(s, w, t)
    requires r.workers == s.workers[w := Announcing] && r.queue == s.queue
    requires OnlyOwnRule(p, s, r, t) && t in p.order
    requires r.StatusOf(t) == Outcome(p, t) && r.Ran(t) == CommandsRun(p, t)
    ensures Inv(p, r)
  {
    FinishWorkers(p, s, r, w, t);
    forall j | 0 <= j < |p.order| ensures RuleOk(p, r, j) {
      FinishRule(p, s, r, w, t, j);
    }
  }

  lemma BroadcastInv(p: Plan, s: Pool)
    requires Inv(p, s)
    ensures Inv(p, s.(workers := Broadcast(s.workers, Signal)))
  {
    var r := s.(workers := Broadcast(s.workers, Signal));
    assert forall x :: 0 <= x < |s.workers| ==> r.workers[x] == Signal(s.workers[x]);
    assert forall x :: HasSentinel(r, x) <==> HasSentinel(s, x);
    assert forall x, v :: Holder(r, x, v) <==> Holder(s, x, v);
    forall x | 0 <= x < |r.workers| ensures WorkerOk(p, r, r.workers[x]) {
      assert WorkerOk(p, s, s.workers[x]);
    }
    forall j | 0 <= j < |p.order| ensures RuleOk(p, r, j) {
      assert RuleOk(p, s, j);
    }
  }

  lemma RefusedFails(p: Plan, s: Pool, t: Key)
    requires Inv(p, s) && t in p.order && WorkerOk(p, s, Refusing(t))
    ensures !DepsSucceed(p, t) && Outcome(p, t) == Failed && CommandsRun(p, t) == 0
  {
    var i :| 0 <= i < |p.Deps(t)| && s.StatusOf(p.Deps(t)[i]) == Failed;
    FailedDepFails(p, s, t, i);
  }

  lemma RefuseNext(p: Plan, s: Pool, w: nat)
    requires w < |s.workers| && s.workers[w].Refusing? && Untried(s, s.workers[w].t)
    ensures var r, t := Next(p, s, w), s.workers[w].t;
            && r.workers == s.workers[w := Announcing] && r.queue == s.queue && OnlyOwnRule(p, s, r, t)
            && r.StatusOf(t) == Failed && r.Ran(t) == 0
  {
  }

  lemma RefuseInv(p: Plan, s: Pool, w: nat)
    requires Inv(p, s) && w < |s.workers| && s.workers[w].Refusing?
    ensures Inv(p, Next(p, s, w))
  {
    var t := s.workers[w].t;
    assert Holder(s, w, t) && WorkerOk(p, s, s.workers[w]);
    RefuseNext(p, s, w);
    RefusedFails(p, s, t);
    FinishInv(p, s, Next(p, s, w), w, t);
  }

  lemma StartRuleInv(p: Plan, s: Pool, w: nat)
    requires Inv(p, s) && w < |s.workers| && s.workers[w].Starting?
    ensures Inv(p, Next(p, s, w))
  {
    var t := s.workers[w].t;
    assert Holder(s, w, t) && WorkerOk(p, s, s.workers[w]);
    KeepInv(p, s, Next(p, s, w), w, t);
  }

  lemma ExecuteInv(p: Plan, s: Pool, w: nat)
    requires Inv(p, s) && w < |s.workers| && s.workers[w].Executing?
    ensures Inv(p, Next(p, s, w))
  {
    var t, k := s.workers[w].t, s.workers[w].k;
    assert Holder(s, w, t) && WorkerOk(p, s, s.workers[w]);
    var r := Next(p, s, w);
    DoneDepsSucceed(p, s, t);
    RunLengthOk(p.Commands(t), k);
    if k < |p.Commands(t)| && p.Commands(t)[k] == 0 {
      KeepInv(p, s, r, w, t);
    } else {
      FinishInv(p, s, r, w, t);
    }
  }

  predicate Reads(pc: Worker) {
    pc.Checking? || pc.TestPending? || pc.TestRunning? || pc.GoingToSleep? || pc.Asleep? || pc.TestFailed?
  }

  /** A step that only reads moves one worker, to a place whose knowledge it has. */
  lemma ReadNext(p: Plan, s: Pool, w: nat)
    requires Enabled(s, w) && Reads(s.workers[w]) && WorkerOk(p, s, s.workers[w])
    requires s.workers[w].TestRunning? ==> s.StatusOf(p.Deps(s.workers[w].t)[s.workers[w].i]) != Untouched
    ensures var pc := Next(p, s, w).workers[w];
            && Next(p, s, w) == s.At(w, pc) && Inside(pc) && WorkerOk(p, s, pc)
            && forall v :: pc.Holds(v) <==> s.workers[w].Holds(v)
  {
  }

  lemma ReadInv(p: Plan, s: Pool, w: nat)
    requires Inv(p, s) && Enabled(s, w) && Reads(s.workers[w])
    ensures Inv(p, Next(p, s, w))
  {
    var t := s.workers[w].t;
    assert Holder(s, w, t);
    assert WorkerOk(p, s, s.workers[w]);
    if s.workers[w].TestRunning? {
      var d := Dep(p, t, s.workers[w].i);
      assert RuleOk(p, s, Pos(p.order, d));
    }
    ReadNext(p, s, w);
    MoveInv(p, s, w, Next(p, s, w).workers[w]);
  }

  lemma StepInv(p: Plan, s: Pool, w: nat)
    requires Inv(p, s) && Enabled(s, w)
    ensures Inv(p, Next(p, s, w))
  {
    match s.workers[w]
    case Pulling =>
      if s.queue[0].Job? { PullJobInv(p, s, w); } else { PullSentinelInv(p, s, w); }
    case Exiting => ExitInv(p, s, w);
    case Announcing =>
      BroadcastInv(p, s);
      MoveInv(p, s.(workers := Broadcast(s.workers, Signal)), w, Pulling);
    case Refusing(_) => RefuseInv(p, s, w);
    case Starting(_) => StartRuleInv(p, s, w);
    case Executing(_, _) => ExecuteInv(p, s, w);
    case _ => ReadInv(p, s, w);
  }

  lemma ApplyInv(p: Plan, s: Pool, ch: Choice)
    requires Inv(p, s)
    ensures Inv(p, Apply(p, s, ch))
  {
    match ch
    case Step(w) => if Enabled(s, w) { StepInv(p, s, w); }
    case Spurious(w) =>
      if CanWake(s, w) {
        assert WorkerOk(p, s, s.workers[w]);
        MoveInv(p, s, w, Signal(s.workers[w]));
      }
  }

  /** The invariant holds in every state that any schedule reaches. */
  lemma {:induction false} RunInv(p: Plan, s: Pool, schedule: seq<Choice>)
    requires Inv(p, s)
    ensures Inv(p, Run(p, s, schedule))
    ensures |Run(p, s, schedule).workers| == |s.workers|
    decreases |schedule|
  {
    if schedule != [] {
      ApplyInv(p, s, schedule[0]);
      RunInv(p, Apply(p, s, schedule[0]), schedule[1..]);
    }
  }

  // -- Main results

  /** Schedule independence: whatever the number of workers and the schedule, once every
      worker is gone each queued rule has the status the sequential recursion gives it,
      and exactly the commands the recursion would have run have run. */
  lemma ScheduleIndependence(p: Plan, status: map<Key, Status>, threads: nat, schedule: seq<Choice>, v: Key)
    requires Startable(p, status) && v in p.order
    requires threads > 0 && AllExited(Run(p, Start(p, status, threads), schedule))
    ensures Run(p, Start(p, status, threads), schedule).StatusOf(v) == Outcome(p, v)
    ensures Run(p, Start(p, status, threads), schedule).Ran(v) == CommandsRun(p, v)
  {
    StartInv(p, status, threads);
    RunInv(p, Start(p, status, threads), schedule);
    var s := Run(p, Start(p, status, threads), schedule);
    assert s.workers[0] == Exited;
    assert RuleOk(p, s, Pos(p.order, v));
  }

  /** What each rule came to, in terms of the final states of its dependencies and of its own commands: it fails
      without running anything when a dependency failed; it is done without running anything when it need not run;
      else its commands run up to the first that fails. */
  lemma FinalStates(p: Plan, status: map<Key, Status>, threads: nat, schedule: seq<Choice>, v: Key)
    requires Startable(p, status) && v in p.order && v in p.g && v in p.rules
    requires threads > 0 && AllExited(Run(p, Start(p, status, threads), schedule))
    ensures var s, rule := Run(p, Start(p, status, threads), schedule), p.rules[v];
            var depsDone := forall d :: d in p.g[v] ==> s.StatusOf(d) == Done;
            && (s.StatusOf(v) == Done || s.StatusOf(v) == Failed)
            && (!depsDone ==> s.StatusOf(v) == Failed && s.Ran(v) == 0)
            && (depsDone && !rule.needRun ==> s.StatusOf(v) == Done && s.Ran(v) == 0)
            && (depsDone && rule.needRun ==>
                  && (s.StatusOf(v) == Done <==> forall k :: 0 <= k < |rule.exits| ==> rule.exits[k] == 0)
                  && s.Ran(v) <= |rule.exits|
                  && (forall k :: 0 <= k < s.Ran(v) - 1 ==> rule.exits[k] == 0)
                  && (s.StatusOf(v) == Done ==> s.Ran(v) == |rule.exits|)
                  && (s.StatusOf(v) == Failed ==> s.Ran(v) > 0 && rule.exits[s.Ran(v) - 1] != 0))
  {
    var s := Run(p, Start(p, status, threads), schedule);
    ScheduleIndependence(p, status, threads, schedule, v);
    forall i | 0 <= i < |p.Deps(v)| ensures s.StatusOf(p.Deps(v)[i]) == Outcome(p, Dep(p, v, i)) {
      ScheduleIndependence(p, status, threads, schedule, Dep(p, v, i));
    }
    assert p.Deps(v) == p.g[v];
    RunLengthMeans(p.Commands(v));
  }

  lemma {:induction false} RunLengthMeans(exits: seq<int>)
    ensures RunLength(exits) <= |exits|
    ensures forall k :: 0 <= k < RunLength(exits) - 1 ==> exits[k] == 0
    ensures (forall k :: 0 <= k < |exits| ==> exits[k] == 0) ==> RunLength(exits) == |exits|
    ensures (exists k :: 0 <= k < |exits| && exits[k] != 0) ==> RunLength(exits) > 0 && exits[RunLength(exits) - 1] != 0
  {
    if exits != [] {
      RunLengthMeans(exits[1..]);
    }
  }

  /** A rule's commands run only while all its dependencies are done, and a rule is
      never run by two workers. */
  lemma CommandsAfterDependencies(p: Plan, status: map<Key, Status>, threads: nat, schedule: seq<Choice>, w: nat)
    requires Startable(p, status)
    requires w < |Run(p, Start(p, status, threads), schedule).workers|
    requires Run(p, Start(p, status, threads), schedule).workers[w].Executing?
    ensures var s := Run(p, Start(p, status, threads), schedule);
            var t := s.workers[w].t;
            && t in p.order
            && (forall d :: d in p.Deps(t) ==> s.StatusOf(d) == Done)
            && (forall x :: Holder(s, x, t) ==> x == w)
  {
    StartInv(p, status, threads);
    RunInv(p, Start(p, status, threads), schedule);
    var s := Run(p, Start(p, status, threads), schedule);
    assert Holder(s, w, s.workers[w].t);
  }

  ghost function SentinelsIn(queue: seq<Item>): nat {
    if queue == [] then 0 else (if queue[0].Sentinel? then 1 else 0) + SentinelsIn(queue[1..])
  }

  lemma {:induction false} OneSentinelAtTheEnd(order: seq<Key>)
    ensures SentinelsIn(Jobs(order) + [Sentinel]) == 1
  {
    if order != [] {
      assert (Jobs(order) + [Sentinel])[1..] == Jobs(order[1..]) + [Sentinel];
      OneSentinelAtTheEnd(order[1..]);
    }
  }

  /** In every reachable state of a pool there is exactly one sentinel: one in the queue and
      none in a worker's hands, or none in the queue and one in a single worker's hands. A worker
      that has exited proves that the last rule has been pulled. */
  lemma OneSentinel(p: Plan, status: map<Key, Status>, threads: nat, schedule: seq<Choice>)
    requires Startable(p, status)
    ensures var s := Run(p, Start(p, status, threads), schedule);
            && (if SentinelsIn(s.queue) == 0 then exists w :: HasSentinel(s, w) && forall x :: HasSentinel(s, x) ==> x == w
                else SentinelsIn(s.queue) == 1 && forall x :: !HasSentinel(s, x))
            && (forall w :: 0 <= w < |s.workers| && s.workers[w] in {Exiting, Exited} ==>
                  forall j :: 0 <= j < |p.order| ==> Job(p.order[j]) !in s.queue)
  {
    StartInv(p, status, threads);
    RunInv(p, Start(p, status, threads), schedule);
    var s := Run(p, Start(p, status, threads), schedule);
    if s.queue != [] {
      OneSentinelAtTheEnd(p.order[Pulled(p, s)..]);
      forall w | 0 <= w < |s.workers| && s.workers[w] in {Exiting, Exited} ensures s.queue == [Sentinel] {
        assert !HasSentinel(s, w);
        assert Pulled(p, s) == |p.order|;
      }
    }
  }
}
