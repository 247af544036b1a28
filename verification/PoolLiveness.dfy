/** Whether the workers get to the end: a potential that every step uses up, and the one way
    the pool can get stuck. */
module PoolLiveness {
  import opened Digraph
  import opened WorkerPool
  import opened Monitors
  import opened PoolSafety

  // -- A potential that every step of a worker uses up

  /** With n workers: the steps from the start of the commands to the announcement, which in
      turn pays for every sleeper to look again. */
  function CommandsWeight(p: Plan, n: nat, t: Key): nat {
    |p.Commands(t)| + 4 * n + 5
  }

  function DepsLeft(p: Plan, t: Key, i: nat): nat {
    if i < |p.Deps(t)| then |p.Deps(t)| - i else 0
  }

  function Weight(p: Plan, n: nat, pc: Worker): nat {
    match pc
    case Exited => 0
    case Exiting => 1
    case Pulling => 2
    case Announcing => 4 * n + 3
    case Executing(t, k) => 4 * n + 4 + if k < |p.Commands(t)| then |p.Commands(t)| - k else 0
    case Refusing(_) => 4 * n + 4
    case Starting(t) => CommandsWeight(p, n, t)
    case TestFailed(t, i) => CommandsWeight(p, n, t) + 10 * DepsLeft(p, t, i) + 2
    case Asleep(t, i, signalled) => CommandsWeight(p, n, t) + 10 * DepsLeft(p, t, i) + if signalled then 6 else 2
    case GoingToSleep(t, i) => CommandsWeight(p, n, t) + 10 * DepsLeft(p, t, i) + 3
    case TestRunning(t, i) => CommandsWeight(p, n, t) + 10 * DepsLeft(p, t, i) + 4
    case TestPending(t, i) => CommandsWeight(p, n, t) + 10 * DepsLeft(p, t, i) + 5
    case Checking(t) => CommandsWeight(p, n, t) + 10 * |p.Deps(t)| + 6
  }

  function ItemWeight(p: Plan, n: nat, item: Item): nat {
    match item
    case Sentinel => 0
    case Job(t) => CommandsWeight(p, n, t) + 10 * |p.Deps(t)| + 5
  }

  function WorkersWeight(p: Plan, n: nat, ws: seq<Worker>): nat {
    if ws == [] then 0 else Weight(p, n, ws[0]) + WorkersWeight(p, n, ws[1..])
  }

  function QueueWeight(p: Plan, n: nat, queue: seq<Item>): nat {
    if queue == [] then 0 else ItemWeight(p, n, queue[0]) + QueueWeight(p, n, queue[1..])
  }

  function Potential(p: Plan, s: Pool): nat {
    WorkersWeight(p, |s.workers|, s.workers) + QueueWeight(p, |s.workers|, s.queue)
  }

  lemma {:induction false} WorkersWeightUpdate(p: Plan, n: nat, ws: seq<Worker>, w: nat, pc: Worker)
    requires w < |ws|
    ensures WorkersWeight(p, n, ws[w := pc]) + Weight(p, n, ws[w]) == WorkersWeight(p, n, ws) + Weight(p, n, pc)
  {
    if w > 0 {
      assert ws[w := pc][1..] == ws[1..][w - 1 := pc];
      WorkersWeightUpdate(p, n, ws[1..], w - 1, pc);
    } else {
      assert ws[w := pc][1..] == ws[1..];
    }
  }

  lemma {:induction false} QueueWeightPush(p: Plan, n: nat, queue: seq<Item>, item: Item)
    ensures QueueWeight(p, n, queue + [item]) == QueueWeight(p, n, queue) + ItemWeight(p, n, item)
  {
    if queue == [] {
      assert QueueWeight(p, n, [item]) == ItemWeight(p, n, item) + QueueWeight(p, n, []);
    } else {
      assert (queue + [item])[1..] == queue[1..] + [item];
      QueueWeightPush(p, n, queue[1..], item);
    }
  }

  lemma {:induction false} BroadcastWeight(p: Plan, n: nat, ws: seq<Worker>)
    ensures WorkersWeight(p, n, Broadcast(ws, Signal)) <= WorkersWeight(p, n, ws) + 4 * |ws|
  {
    if ws != [] {
      assert Broadcast(ws, Signal)[1..] == Broadcast(ws[1..], Signal);
      BroadcastWeight(p, n, ws[1..]);
    }
  }

  lemma MoveWeight(p: Plan, s: Pool, w: nat, n: nat)
    requires Enabled(s, w) && WorkerOk(p, s, s.workers[w])
    requires s.workers[w] != Pulling && s.workers[w] != Announcing && s.workers[w] != Exiting
    ensures Weight(p, n, Next(p, s, w).workers[w]) < Weight(p, n, s.workers[w])
    ensures Next(p, s, w).workers == s.workers[w := Next(p, s, w).workers[w]] && Next(p, s, w).queue == s.queue
  {
  }

  lemma AnnouncingUsesPotential(p: Plan, s: Pool, w: nat)
    requires w < |s.workers| && s.workers[w] == Announcing
    ensures Potential(p, Next(p, s, w)) < Potential(p, s)
  {
    var n := |s.workers|;
    BroadcastWeight(p, n, s.workers);
    WorkersWeightUpdate(p, n, Broadcast(s.workers, Signal), w, Pulling);
  }

  lemma PullingUsesPotential(p: Plan, s: Pool, w: nat)
    requires w < |s.workers| && s.workers[w] == Pulling && s.queue != []
    ensures Potential(p, Next(p, s, w)) < Potential(p, s)
  {
    WorkersWeightUpdate(p, |s.workers|, s.workers, w, Next(p, s, w).workers[w]);
  }

  lemma ExitingUsesPotential(p: Plan, s: Pool, w: nat)
    requires w < |s.workers| && s.workers[w] == Exiting
    ensures Potential(p, Next(p, s, w)) < Potential(p, s)
  {
    QueueWeightPush(p, |s.workers|, s.queue, Sentinel);
    WorkersWeightUpdate(p, |s.workers|, s.workers, w, Exited);
  }

  lemma StepUsesPotential(p: Plan, s: Pool, w: nat)
    requires Inv(p, s) && Enabled(s, w)
    ensures Potential(p, Next(p, s, w)) < Potential(p, s)
  {
    if s.workers[w] == Announcing {
      AnnouncingUsesPotential(p, s, w);
    } else if s.workers[w] == Pulling {
      PullingUsesPotential(p, s, w);
    } else if s.workers[w] == Exiting {
      ExitingUsesPotential(p, s, w);
    } else {
      MoveWeight(p, s, w, |s.workers|);
      WorkersWeightUpdate(p, |s.workers|, s.workers, w, Next(p, s, w).workers[w]);
    }
  }

  lemma SpuriousPotential(p: Plan, s: Pool, w: nat)
    requires CanWake(s, w)
    ensures Potential(p, Apply(p, s, Spurious(w))) == Potential(p, s) + 4
  {
    WorkersWeightUpdate(p, |s.workers|, s.workers, w, Signal(s.workers[w]));
  }

  /** How many choices of a schedule are steps that a worker really takes. */
  function Moves(p: Plan, s: Pool, schedule: seq<Choice>): nat
    decreases |schedule|
  {
    if schedule == [] then 0
    else
      (if schedule[0].Step? && Enabled(s, schedule[0].w) then 1 else 0)
      + Moves(p, Apply(p, s, schedule[0]), schedule[1..])
  }

  /** How many choices of a schedule are real spurious wake-ups. */
  function SpuriousWakes(p: Plan, s: Pool, schedule: seq<Choice>): nat
    decreases |schedule|
  {
    if schedule == [] then 0
    else
      (if schedule[0].Spurious? && CanWake(s, schedule[0].w) then 1 else 0)
      + SpuriousWakes(p, Apply(p, s, schedule[0]), schedule[1..])
  }

  lemma {:induction false} MovesBounded(p: Plan, s: Pool, schedule: seq<Choice>)
    requires Inv(p, s)
    ensures Moves(p, s, schedule) + Potential(p, Run(p, s, schedule)) <= Potential(p, s) + 4 * SpuriousWakes(p, s, schedule)
    decreases |schedule|
  {
    if schedule != [] {
      var ch := schedule[0];
      ApplyInv(p, s, ch);
      MovesBounded(p, Apply(p, s, ch), schedule[1..]);
      if ch.Step? && Enabled(s, ch.w) {
        StepUsesPotential(p, s, ch.w);
      } else if ch.Spurious? && CanWake(s, ch.w) {
        SpuriousPotential(p, s, ch.w);
      }
    }
  }

  /** The work a plan holds for n workers. */
  function Work(p: Plan, n: nat, order: seq<Key>): nat {
    if order == [] then 0
    else |p.Commands(order[0])| + 10 * |p.Deps(order[0])| + 4 * n + 10 + Work(p, n, order[1..])
  }

  lemma {:induction false} QueueWeightOfJobs(p: Plan, n: nat, order: seq<Key>)
    ensures QueueWeight(p, n, Jobs(order) + [Sentinel]) == Work(p, n, order)
  {
    var queue := Jobs(order) + [Sentinel];
    if order == [] {
      assert queue == [Sentinel] && queue[1..] == [];
    } else {
      assert queue[1..] == Jobs(order[1..]) + [Sentinel];
      QueueWeightOfJobs(p, n, order[1..]);
    }
  }

  lemma {:induction false} WeightOfPulling(p: Plan, n: nat, k: nat)
    ensures WorkersWeight(p, n, seq(k, _ => Pulling)) == 2 * k
  {
    if k > 0 {
      assert seq(k, _ => Pulling)[1..] == seq(k - 1, _ => Pulling);
      WeightOfPulling(p, n, k - 1);
    }
  }

  /** No run goes on for ever: the number of steps the workers take is bounded by the work
      in the plan, plus four for each spurious wake-up. */
  lemma EveryRunIsFinite(p: Plan, status: map<Key, Status>, threads: nat, schedule: seq<Choice>)
    requires Startable(p, status)
    ensures Moves(p, Start(p, status, threads), schedule)
         <= Work(p, threads, p.order) + 2 * threads + 4 * SpuriousWakes(p, Start(p, status, threads), schedule)
  {
    var s := Start(p, status, threads);
    StartInv(p, status, threads);
    MovesBounded(p, s, schedule);
    QueueWeightOfJobs(p, threads, p.order);
    WeightOfPulling(p, threads, threads);
  }

  // -- Getting stuck

  /** No worker can take a step. */
  ghost predicate Stuck(s: Pool) {
    forall w :: 0 <= w < |s.workers| ==> !Enabled(s, w)
  }

  ghost predicate Deadlocked(s: Pool) {
    Stuck(s) && !AllExited(s)
  }

  ghost predicate Unfinished(s: Pool, v: Key) {
    !s.StatusOf(v).Finished()
  }

  /** Worker w sleeps, nobody has signalled it, and what it waits for has happened. */
  ghost predicate LostWakeup(p: Plan, s: Pool, w: int) {
    && 0 <= w < |s.workers|
    && s.workers[w].Asleep?
    && !s.workers[w].signalled
    && s.workers[w].i < |p.Deps(s.workers[w].t)|
    && !Unfinished(s, p.Deps(s.workers[w].t)[s.workers[w].i])
  }

  /** Order index j holds the earliest unfinished rule. */
  ghost predicate Earliest(p: Plan, s: Pool, j: nat) {
    && j < |p.order|
    && Unfinished(s, p.order[j])
    && forall i :: 0 <= i < j ==> !Unfinished(s, p.order[i])
  }

  lemma {:induction false} EarliestExists(p: Plan, s: Pool, j: nat) returns (e: nat)
    requires j < |p.order| && Unfinished(s, p.order[j])
    ensures e <= j && Earliest(p, s, e)
  {
    e := 0;
    while !Unfinished(s, p.order[e])
      invariant e <= j
      invariant forall i :: 0 <= i < e ==> !Unfinished(s, p.order[i])
      decreases j - e
    {
      e := e + 1;
    }
  }

  /** Nobody waits in a circle: in every reachable state the earliest unfinished rule is still in
      the queue, or with a worker, and there is nothing left for that worker to wait for. */
  lemma EarliestNeedNotWait(p: Plan, status: map<Key, Status>, threads: nat, schedule: seq<Choice>, j: nat)
    requires Startable(p, status)
    requires Earliest(p, Run(p, Start(p, status, threads), schedule), j)
    ensures var s := Run(p, Start(p, status, threads), schedule);
            && (Job(p.order[j]) in s.queue || exists w :: Holder(s, w, p.order[j]))
            && forall d :: d in p.Deps(p.order[j]) ==> s.StatusOf(d).Finished()
  {
    StartInv(p, status, threads);
    RunInv(p, Start(p, status, threads), schedule);
    var s := Run(p, Start(p, status, threads), schedule);
    EarliestDeps(p, s, j);
    assert RuleOk(p, s, j);
    var m := Pulled(p, s);
    if j >= m {
      assert s.queue[j - m] == Job(p.order[j]);
    }
  }

  lemma EarliestDeps(p: Plan, s: Pool, j: nat)
    requires Inv(p, s) && Earliest(p, s, j)
    ensures forall d :: d in p.Deps(p.order[j]) ==> s.StatusOf(d).Finished()
  {
    forall d | d in p.Deps(p.order[j]) ensures s.StatusOf(d).Finished() {
      var i :| 0 <= i < |p.Deps(p.order[j])| && p.Deps(p.order[j])[i] == d;
      assert d in p.order[..j];
    }
  }

  /** Losing a wake-up is the only way to deadlock. */
  lemma DeadlockIsLostWakeup(p: Plan, s: Pool)
    requires Inv(p, s) && Deadlocked(s)
    ensures exists w :: LostWakeup(p, s, w)
  {
    if s.queue == [] {
      var w :| HasSentinel(s, w);
      assert Enabled(s, w);
    }
    var w :| 0 <= w < |s.workers| && s.workers[w] != Exited;
    assert !Enabled(s, w) && WorkerOk(p, s, s.workers[w]);
    var t := s.workers[w].t;
    assert Holder(s, w, t);
    var j := Pos(p.order, t);
    var e := EarliestExists(p, s, j);
    assert RuleOk(p, s, j) && RuleOk(p, s, e);
    var x :| Holder(s, x, p.order[e]);
    assert !Enabled(s, x) && WorkerOk(p, s, s.workers[x]);
    EarliestDeps(p, s, e);
    assert LostWakeup(p, s, x);
  }

  // -- When checking and going to sleep are not interrupted, no wake-up is lost

  ghost predicate WaitsFor(p: Plan, s: Pool, pc: Worker) {
    (pc.Asleep? || pc.GoingToSleep?) && pc.i < |p.Deps(pc.t)| && Unfinished(s, p.Deps(pc.t)[pc.i])
  }

  /** In this schedule a worker goes to sleep only while its wait condition still holds, as it
      would if the test at the loop head were made with the mutex held. */
  ghost predicate Uninterrupted(p: Plan, s: Pool, schedule: seq<Choice>)
    decreases |schedule|
  {
    schedule != [] ==>
      && (schedule[0].Step? && Enabled(s, schedule[0].w) && s.workers[schedule[0].w].GoingToSleep? ==>
            WaitsFor(p, s, s.workers[schedule[0].w]))
      && Uninterrupted(p, Apply(p, s, schedule[0]), schedule[1..])
  }

  /** A sleeper nobody has signalled still has to wait, unless a broadcast is on its way. */
  ghost predicate SleepersServed(p: Plan, s: Pool) {
    forall w :: 0 <= w < |s.workers| && s.workers[w].Asleep? && !s.workers[w].signalled ==>
      WaitsFor(p, s, s.workers[w]) || exists x :: IsAnnouncing(s, x)
  }

  ghost predicate IsAnnouncing(s: Pool, x: int) {
    0 <= x < |s.workers| && s.workers[x] == Announcing
  }

  lemma ServedStep(p: Plan, s: Pool, w: nat)
    requires Inv(p, s) && SleepersServed(p, s) && Enabled(s, w)
    requires s.workers[w].GoingToSleep? ==> WaitsFor(p, s, s.workers[w])
    ensures SleepersServed(p, Next(p, s, w))
  {
    if s.workers[w] == Announcing {
      var r := Next(p, s, w);
      assert forall y :: 0 <= y < |r.workers| && r.workers[y].Asleep? ==> r.workers[y].signalled;
    } else {
      ServedMove(p, s, w);
    }
  }

  /** A step other than a broadcast moves one worker; when it finishes a rule a broadcast is next. */
  lemma OneMoves(p: Plan, s: Pool, w: nat)
    requires Enabled(s, w) && s.workers[w] != Announcing && WorkerOk(p, s, s.workers[w])
    ensures var r := Next(p, s, w);
            && r.workers == s.workers[w := r.workers[w]]
            && (r.workers[w] == Announcing || forall v :: Unfinished(s, v) ==> Unfinished(r, v))
            && (r.workers[w].Asleep? ==> s.workers[w] == GoingToSleep(r.workers[w].t, r.workers[w].i))
  {
  }

  lemma ServedMove(p: Plan, s: Pool, w: nat)
    requires SleepersServed(p, s) && Enabled(s, w) && s.workers[w] != Announcing && WorkerOk(p, s, s.workers[w])
    requires s.workers[w].GoingToSleep? ==> WaitsFor(p, s, s.workers[w])
    ensures SleepersServed(p, Next(p, s, w))
  {
    var r := Next(p, s, w);
    OneMoves(p, s, w);
    forall y | 0 <= y < |r.workers| && r.workers[y].Asleep? && !r.workers[y].signalled
      ensures WaitsFor(p, r, r.workers[y]) || exists x :: IsAnnouncing(r, x)
    {
      if r.workers[w] == Announcing {
        assert IsAnnouncing(r, w);
      } else if y != w && !WaitsFor(p, s, s.workers[y]) {
        var x :| IsAnnouncing(s, x);
        assert IsAnnouncing(r, x);
      }
    }
  }

  lemma ServedSpurious(p: Plan, s: Pool, w: nat)
    requires SleepersServed(p, s)
    ensures SleepersServed(p, Apply(p, s, Spurious(w)))
  {
    var r := Apply(p, s, Spurious(w));
    forall y | 0 <= y < |r.workers| && r.workers[y].Asleep? && !r.workers[y].signalled
      ensures WaitsFor(p, r, r.workers[y]) || exists x :: IsAnnouncing(r, x)
    {
      if !WaitsFor(p, s, s.workers[y]) {
        var x :| IsAnnouncing(s, x);
        assert IsAnnouncing(r, x);
      }
    }
  }

  lemma {:induction false} ServedRun(p: Plan, s: Pool, schedule: seq<Choice>)
    requires Inv(p, s) && SleepersServed(p, s) && Uninterrupted(p, s, schedule)
    ensures SleepersServed(p, Run(p, s, schedule))
    decreases |schedule|
  {
    if schedule != [] {
      var ch := schedule[0];
      ApplyInv(p, s, ch);
      match ch {
        case Step(w) => if Enabled(s, w) { ServedStep(p, s, w); }
        case Spurious(w) => ServedSpurious(p, s, w);
      }
      ServedRun(p, Apply(p, s, ch), schedule[1..]);
    }
  }

  /** With uninterrupted waits, a run can only stop when every worker has exited. */
  lemma UninterruptedNeverDeadlocks(p: Plan, status: map<Key, Status>, threads: nat, schedule: seq<Choice>)
    requires Startable(p, status) && Uninterrupted(p, Start(p, status, threads), schedule)
    ensures !Deadlocked(Run(p, Start(p, status, threads), schedule))
  {
    StartInv(p, status, threads);
    RunInv(p, Start(p, status, threads), schedule);
    ServedRun(p, Start(p, status, threads), schedule);
    var s := Run(p, Start(p, status, threads), schedule);
    if Deadlocked(s) {
      assert forall x :: IsAnnouncing(s, x) ==> Enabled(s, x);
      DeadlockIsLostWakeup(p, s);
    }
  }
}
