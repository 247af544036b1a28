/** Exactly which pools can lose a wake-up for good: the test of a dependency's status is made
    without the mutex, so a broadcast can fall between that test and the sleep. */
module PoolDeadlock {
  import opened Digraph
  import opened WorkerPool
  import opened Monitors
  import opened PoolSafety
  import opened PoolLiveness

  // -- One worker, or no dependencies: nobody ever goes to sleep

  ghost predicate NobodySleeps(s: Pool) {
    forall w :: 0 <= w < |s.workers| ==> !s.workers[w].GoingToSleep? && !s.workers[w].Asleep?
  }

  /** Some queued rule has a dependency. */
  ghost predicate HasDependency(p: Plan) {
    exists v :: v in p.order && p.Deps(v) != []
  }

  lemma NobodySleepsStep(p: Plan, s: Pool, w: nat)
    requires Inv(p, s) && Enabled(s, w) && NobodySleeps(s)
    requires |s.workers| == 1 || !HasDependency(p)
    ensures NobodySleeps(Next(p, s, w))
  {
    var r := Next(p, s, w);
    if s.workers[w].TestPending? || s.workers[w].TestRunning? {
      var t, i := s.workers[w].t, s.workers[w].i;
      assert WorkerOk(p, s, s.workers[w]) && Holder(s, w, t);
      if i < |p.Deps(t)| {
        assert |s.workers| == 1;
        SoleWorkerNeedNotWait(p, s, t, i);
      }
    }
  }

  lemma SoleWorkerNeedNotWait(p: Plan, s: Pool, t: Key, i: nat)
    requires Inv(p, s) && |s.workers| == 1 && Holder(s, 0, t) && t in p.order && i < |p.Deps(t)|
    ensures s.StatusOf(p.Deps(t)[i]).Finished()
  {
    var d := Dep(p, t, i);
    assert RuleOk(p, s, Pos(p.order, t)) && RuleOk(p, s, Pos(p.order, d));
    assert forall x :: Holder(s, x, d) ==> x == 0;
  }

  lemma {:induction false} NobodySleepsRun(p: Plan, s: Pool, schedule: seq<Choice>)
    requires Inv(p, s) && NobodySleeps(s)
    requires |s.workers| == 1 || !HasDependency(p)
    ensures NobodySleeps(Run(p, s, schedule))
    decreases |schedule|
  {
    if schedule != [] {
      var ch := schedule[0];
      ApplyInv(p, s, ch);
      if ch.Step? && Enabled(s, ch.w) {
        NobodySleepsStep(p, s, ch.w);
      }
      NobodySleepsRun(p, Apply(p, s, ch), schedule[1..]);
    }
  }

  lemma NeverDeadlocks(p: Plan, status: map<Key, Status>, threads: nat, schedule: seq<Choice>)
    requires Startable(p, status) && (threads <= 1 || !HasDependency(p))
    ensures !Deadlocked(Run(p, Start(p, status, threads), schedule))
  {
    var s := Run(p, Start(p, status, threads), schedule);
    StartInv(p, status, threads);
    RunInv(p, Start(p, status, threads), schedule);
    if threads > 0 {
      NobodySleepsRun(p, Start(p, status, threads), schedule);
      if Deadlocked(s) {
        DeadlockIsLostWakeup(p, s);
      }
    }
  }

  // -- Two workers and a dependency: a schedule that deadlocks

  lemma {:induction false} RunJoin(p: Plan, s: Pool, a: seq<Choice>, b: seq<Choice>)
    ensures Run(p, s, a + b) == Run(p, Run(p, s, a), b)
    decreases |a|
  {
    if a == [] {
      assert a + b == b;
    } else {
      assert (a + b)[1..] == a[1..] + b;
      RunJoin(p, Apply(p, s, a[0]), a[1..], b);
    }
  }

  ghost predicate StepsOnly(schedule: seq<Choice>) {
    forall c :: c in schedule ==> c.Step?
  }

  /** r is reached from s by steps of workers alone. */
  ghost predicate Leads(p: Plan, s: Pool, r: Pool) {
    exists schedule :: StepsOnly(schedule) && Run(p, s, schedule) == r
  }

  lemma LeadsSelf(p: Plan, s: Pool)
    ensures Leads(p, s, s)
  {
    assert StepsOnly([]) && Run(p, s, []) == s;
  }

  lemma LeadsStep(p: Plan, s: Pool, w: nat, r: Pool)
    requires Enabled(s, w) && Leads(p, Next(p, s, w), r)
    ensures Leads(p, s, r)
  {
    var rest :| StepsOnly(rest) && Run(p, Next(p, s, w), rest) == r;
    var schedule := [Step(w)] + rest;
    assert schedule[1..] == rest && Apply(p, s, schedule[0]) == Next(p, s, w);
    assert StepsOnly(schedule);
  }

  lemma LeadsJoin(p: Plan, s: Pool, q: Pool, r: Pool)
    requires Leads(p, s, q) && Leads(p, q, r)
    ensures Leads(p, s, r)
  {
    var a :| StepsOnly(a) && Run(p, s, a) == q;
    var b :| StepsOnly(b) && Run(p, q, b) == r;
    RunJoin(p, s, a, b);
    assert StepsOnly(a + b);
  }

  lemma LeadsInv(p: Plan, s: Pool, r: Pool)
    requires Inv(p, s) && Leads(p, s, r)
    ensures Inv(p, r) && |r.workers| == |s.workers|
  {
    var a :| StepsOnly(a) && Run(p, s, a) == r;
    RunInv(p, s, a);
  }

  /** Worker w has the rule t, which has no dependencies, or is on its way back from it;
      no one else sleeps. */
  ghost predicate Alone(p: Plan, s: Pool, w: nat, t: Key) {
    && Inv(p, s)
    && w < |s.workers|
    && p.Deps(t) == []
    && NobodySleeps(s)
    && (Holder(s, w, t) || s.workers[w].Announcing? || s.workers[w].Pulling?)
  }

  /** From s to r only worker w has moved, and it has touched only rule t. */
  ghost predicate OnlyMoved(s: Pool, r: Pool, w: nat, t: Key) {
    && w < |s.workers| == |r.workers|
    && r.workers == s.workers[w := r.workers[w]]
    && r.queue == s.queue
    && forall v :: v != t ==> r.StatusOf(v) == s.StatusOf(v)
  }

  lemma AloneStep(p: Plan, s: Pool, w: nat, t: Key)
    requires Alone(p, s, w, t) && s.workers[w] != Pulling
    ensures Enabled(s, w) && Alone(p, Next(p, s, w), w, t) && OnlyMoved(s, Next(p, s, w), w, t)
  {
    assert WorkerOk(p, s, s.workers[w]);
    assert Enabled(s, w);
    StepInv(p, s, w);
    var r := Next(p, s, w);
    if s.workers[w] == Announcing {
      assert Broadcast(s.workers, Signal) == s.workers;
    } else {
      assert r.workers == s.workers[w := r.workers[w]];
    }
  }

  /** A worker that holds a rule without dependencies gets through it by itself. */
  lemma {:induction false} FinishAlone(p: Plan, s: Pool, w: nat, t: Key) returns (r: Pool)
    requires Alone(p, s, w, t)
    ensures Leads(p, s, r) && Alone(p, r, w, t) && r.workers[w] == Pulling && OnlyMoved(s, r, w, t)
    decreases Potential(p, s)
  {
    if s.workers[w] == Pulling {
      r := s;
      LeadsSelf(p, s);
    } else {
      AloneStep(p, s, w, t);
      StepUsesPotential(p, s, w);
      r := FinishAlone(p, Next(p, s, w), w, t);
      LeadsStep(p, s, w, r);
    }
  }

  /** Nobody sleeps, and worker w is about to pull. */
  ghost predicate Calm(p: Plan, s: Pool, w: nat) {
    Inv(p, s) && w < |s.workers| && NobodySleeps(s) && s.workers[w] == Pulling
  }

  /** Worker w pulls the next rule of the queue. */
  lemma PullNext(p: Plan, s: Pool, w: nat) returns (r: Pool)
    requires Calm(p, s, w) && Pulled(p, s) < |p.order|
    ensures 0 <= Pulled(p, s) && Pulled(p, r) == Pulled(p, s) + 1
    ensures Leads(p, s, r) && Inv(p, r) && NobodySleeps(r)
    ensures r.workers == s.workers[w := Checking(p.order[Pulled(p, s)])] && r.status == s.status
    ensures r.queue == s.queue[1..]
  {
    var m := Pulled(p, s);
    assert s.queue[0] == Jobs(p.order[m..])[0];
    r := Next(p, s, w);
    StepInv(p, s, w);
    LeadsSelf(p, r);
    LeadsStep(p, s, w, r);
  }

  /** Worker w works through the queue up to the rule at index j, all without dependencies. */
  lemma {:induction false} DrainTo(p: Plan, s: Pool, w: nat, j: nat) returns (r: Pool)
    requires Calm(p, s, w) && Pulled(p, s) <= j < |p.order|
    requires forall i :: 0 <= i < j ==> p.Deps(p.order[i]) == []
    ensures Leads(p, s, r) && Calm(p, r, w) && Pulled(p, r) == j
    ensures r.workers == s.workers
    decreases j - Pulled(p, s)
  {
    if Pulled(p, s) == j {
      r := s;
      LeadsSelf(p, s);
    } else {
      var q := PullNext(p, s, w);
      var t := p.order[Pulled(p, s)];
      assert Holder(q, w, t);
      var q' := FinishAlone(p, q, w, t);
      LeadsJoin(p, s, q, q');
      r := DrainTo(p, q', w, j);
      LeadsJoin(p, s, q', r);
    }
  }

  /** Everybody but worker b has run until nothing more can happen. */
  lemma {:induction false} RunTheOthers(p: Plan, s: Pool, b: nat) returns (r: Pool)
    requires Inv(p, s) && b < |s.workers| && s.workers[b].GoingToSleep?
    ensures Leads(p, s, r) && Inv(p, r) && |r.workers| == |s.workers| && r.workers[b] == s.workers[b]
    ensures forall w :: 0 <= w < |r.workers| && w != b ==> !Enabled(r, w)
    decreases Potential(p, s)
  {
    if w :| 0 <= w < |s.workers| && w != b && Enabled(s, w) {
      OtherStep(p, s, w, b);
      r := RunTheOthers(p, Next(p, s, w), b);
      LeadsStep(p, s, w, r);
    } else {
      r := s;
      LeadsSelf(p, s);
    }
  }

  lemma OtherStep(p: Plan, s: Pool, w: nat, b: nat)
    requires Inv(p, s) && Enabled(s, w) && b < |s.workers| && w != b && s.workers[b].GoingToSleep?
    ensures Inv(p, Next(p, s, w)) && Next(p, s, w).workers[b] == s.workers[b]
    ensures Potential(p, Next(p, s, w)) < Potential(p, s)
  {
    StepInv(p, s, w);
    StepUsesPotential(p, s, w);
    GapStays(p, s, w, b);
  }

  lemma GapStays(p: Plan, s: Pool, w: nat, b: nat)
    requires Enabled(s, w) && b < |s.workers| && w != b && s.workers[b].GoingToSleep?
    ensures Next(p, s, w).workers[b] == s.workers[b]
  {
  }

  /** A worker caught between its test and its sleep can be made to sleep for ever. */
  lemma SleepForEver(p: Plan, s: Pool, b: nat) returns (r: Pool)
    requires Inv(p, s) && b < |s.workers| && s.workers[b].GoingToSleep?
    ensures Leads(p, s, r) && Deadlocked(r)
  {
    var q := RunTheOthers(p, s, b);
    r := Next(p, q, b);
    LeadsSelf(p, r);
    LeadsStep(p, q, b, r);
    LeadsJoin(p, s, q, r);
    assert r.queue == q.queue;
    forall w | 0 <= w < |r.workers| ensures !Enabled(r, w) {
      assert w != b ==> !Enabled(q, w);
    }
    assert r.workers[b] != Exited;
  }

  /** The first queued rule that has a dependency. */
  lemma FirstDependent(p: Plan) returns (j: nat)
    requires HasDependency(p)
    ensures j < |p.order| && p.Deps(p.order[j]) != []
    ensures forall i :: 0 <= i < j ==> p.Deps(p.order[i]) == []
  {
    var v :| v in p.order && p.Deps(v) != [];
    var n :| 0 <= n < |p.order| && p.order[n] == v;
    j := 0;
    while p.Deps(p.order[j]) == []
      invariant j <= n
      invariant forall i :: 0 <= i < j ==> p.Deps(p.order[i]) == []
      decreases n - j
    {
      j := j + 1;
    }
  }

  /** Its position, with the earlier position of its first dependency. */
  lemma FirstPair(p: Plan) returns (ju: nat, jv: nat)
    requires HasDependency(p) && p.Ordered()
    ensures ju < jv < |p.order| && p.Deps(p.order[jv]) != [] && p.Deps(p.order[jv])[0] == p.order[ju]
    ensures forall i :: 0 <= i < jv ==> p.Deps(p.order[i]) == []
  {
    jv := FirstDependent(p);
    assert p.Deps(p.order[jv])[0] in p.order[..jv];
    ju :| 0 <= ju < jv && p.order[..jv][ju] == p.Deps(p.order[jv])[0];
  }

  /** Worker w pulls a rule whose first dependency is pending, tests it, and turns to sleep. */
  lemma TurnToSleep(p: Plan, s: Pool, w: nat) returns (r: Pool)
    requires Calm(p, s, w) && Pulled(p, s) < |p.order|
    requires p.Deps(p.order[Pulled(p, s)]) != [] && s.StatusOf(p.Deps(p.order[Pulled(p, s)])[0]) == Pending
    ensures Leads(p, s, r) && Inv(p, r) && |r.workers| == |s.workers| && r.workers[w].GoingToSleep?
  {
    var t := p.order[Pulled(p, s)];
    var q := PullNext(p, s, w);
    assert WorkerOk(p, q, q.workers[w]);
    var q1 := Next(p, q, w);
    assert q1.workers[w] == TestPending(t, 0) && q1.status == s.status;
    r := Next(p, q1, w);
    assert r.workers[w] == GoingToSleep(t, 0);
    LeadsSelf(p, r);
    LeadsStep(p, q1, w, r);
    LeadsStep(p, q, w, r);
    LeadsJoin(p, s, q, r);
    LeadsInv(p, s, r);
  }

  /** Worker w works through the queue up to the rule at index j and pulls that one. */
  lemma DrainAndPull(p: Plan, s: Pool, w: nat, j: nat) returns (r: Pool)
    requires Calm(p, s, w) && Pulled(p, s) <= j < |p.order|
    requires forall i :: 0 <= i < j ==> p.Deps(p.order[i]) == []
    ensures Leads(p, s, r) && Inv(p, r) && NobodySleeps(r) && Pulled(p, r) == j + 1
    ensures r.workers == s.workers[w := Checking(p.order[j])]
  {
    var q := DrainTo(p, s, w, j);
    r := PullNext(p, q, w);
    LeadsJoin(p, s, q, r);
  }

  /** Worker w works through the queue up to the rule at index j, whose first dependency another
      worker has only just pulled. */
  lemma DrainAndTurn(p: Plan, s: Pool, w: nat, j: nat, x: nat) returns (r: Pool)
    requires Calm(p, s, w) && Pulled(p, s) <= j < |p.order|
    requires forall i :: 0 <= i < j ==> p.Deps(p.order[i]) == []
    requires p.Deps(p.order[j]) != [] && x < |s.workers| && s.workers[x] == Checking(p.Deps(p.order[j])[0])
    ensures Leads(p, s, r) && Inv(p, r) && |r.workers| == |s.workers| && r.workers[w].GoingToSleep?
  {
    var q := DrainTo(p, s, w, j);
    assert WorkerOk(p, q, q.workers[x]);
    r := TurnToSleep(p, q, w);
    LeadsJoin(p, s, q, r);
  }

  /** Worker 0 takes the first dependency of the first dependent rule; worker 1 clears the
      rules in between and pulls the dependent one. */
  lemma ReachTheGap(p: Plan, s: Pool) returns (r: Pool)
    requires Calm(p, s, 0) && Calm(p, s, 1) && Pulled(p, s) == 0 && HasDependency(p)
    ensures Leads(p, s, r) && Inv(p, r) && |r.workers| == |s.workers| && r.workers[1].GoingToSleep?
  {
    var ju, jv := FirstPair(p);
    var q := DrainAndPull(p, s, 0, ju);
    r := DrainAndTurn(p, q, 1, jv, 0);
    LeadsJoin(p, s, q, r);
  }

  lemma LeadsToDeadlock(p: Plan, s: Pool, r: Pool)
    requires Leads(p, s, r) && Deadlocked(r)
    ensures exists schedule :: StepsOnly(schedule) && Deadlocked(Run(p, s, schedule))
  {
    var schedule :| StepsOnly(schedule) && Run(p, s, schedule) == r;
    assert Deadlocked(Run(p, s, schedule));
  }

  /** The pool can deadlock exactly when it has at least two workers and some queued rule has
      a dependency. */
  lemma DeadlockIff(p: Plan, status: map<Key, Status>, threads: nat)
    requires Startable(p, status)
    ensures (exists schedule :: StepsOnly(schedule) && Deadlocked(Run(p, Start(p, status, threads), schedule)))
        <==> threads >= 2 && HasDependency(p)
  {
    var s := Start(p, status, threads);
    if threads >= 2 && HasDependency(p) {
      StartInv(p, status, threads);
      var q := ReachTheGap(p, s);
      var r := SleepForEver(p, q, 1);
      LeadsJoin(p, s, q, r);
      LeadsToDeadlock(p, s, r);
    } else {
      forall schedule ensures !Deadlocked(Run(p, s, schedule)) {
        NeverDeadlocks(p, status, threads, schedule);
      }
    }
  }
}
