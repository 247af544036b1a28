/** The reusable barrier, as a machine whose steps are what a thread does while it holds the mutex. The
    generation counter wraps around like the unsigned int that it is. */
module Barrier {
  import opened Monitors
  import Sets

  const WRAP: nat := 0x1_0000_0000

  /** A thread outside barrier_wait, or asleep in it: with the counter value it saved, and, for the
      proof, the generation it arrived in. */
  datatype Thread = Outside | Asleep(saved: nat, gen: nat, signalled: bool)

  /** used is times_used; gens and arrived count the same things without wrapping. */
  datatype State = State(n: nat, count: nat, used: nat, gens: nat, threads: seq<Thread>, arrived: seq<nat>)

  function Init(n: nat, participants: nat): State {
    State(n, 0, 0, 0, seq(participants, _ => Outside), seq(participants, _ => 0))
  }

  function Signal(t: Thread): Thread {
    if t.Asleep? then t.(signalled := true) else t
  }

  /** Thread t calls barrier_wait: it may open a new generation, and either completes its generation,
      wakes everyone and leaves, or goes to sleep. */
  function Arrive(s: State, t: nat): State
    requires t < |s.threads| && t < |s.arrived|
  {
    var opens := s.count == s.n;
    var count := (if opens then 0 else s.count) + 1;
    var used := if opens then (s.used + 1) % WRAP else s.used;
    var gens := if opens then s.gens + 1 else s.gens;
    var r := s.(count := count, used := used, gens := gens, arrived := s.arrived[t := s.arrived[t] + 1]);
    if count == s.n then r.(threads := Broadcast(s.threads, Signal))
    else r.(threads := s.threads[t := Asleep(used, gens, false)])
  }

  /** The condition of the wait loop. */
  predicate MustWait(s: State, saved: nat) {
    saved == s.used && s.count != s.n
  }

  /** Thread t has been woken and looks at the condition again. */
  function Look(s: State, t: nat): State
    requires t < |s.threads| && s.threads[t].Asleep?
  {
    if MustWait(s, s.threads[t].saved) then s.(threads := s.threads[t := s.threads[t].(signalled := false)])
    else s.(threads := s.threads[t := Outside])
  }

  /** A thread calls; a thread that was signalled wakes; any sleeper wakes for no reason. */
  datatype Choice = Call(t: nat) | Wake(t: nat) | Spurious(t: nat)

  predicate Enabled(s: State, ch: Choice) {
    && ch.t < |s.threads| && ch.t < |s.arrived|
    && match ch
       case Call(t) => s.threads[t].Outside?
       case Wake(t) => s.threads[t].Asleep? && s.threads[t].signalled
       case Spurious(t) => s.threads[t].Asleep?
  }

  function Step(s: State, ch: Choice): State {
    if !Enabled(s, ch) then s else if ch.Call? then Arrive(s, ch.t) else Look(s, ch.t)
  }

  function Run(s: State, schedule: seq<Choice>): State
    decreases |schedule|
  {
    if schedule == [] then s else Run(Step(s, schedule[0]), schedule[1..])
  }

  // -- Any number of threads

  ghost predicate ThreadOk(s: State, i: nat)
    requires i < |s.threads|
  {
    s.threads[i].Asleep? ==>
      && s.threads[i].gen <= s.gens
      && s.threads[i].saved == s.threads[i].gen % WRAP
      && (!s.threads[i].signalled ==> MustWait(s, s.threads[i].saved))
  }

  ghost predicate Inv(s: State) {
    && s.n > 0 && s.count <= s.n && (s.count == 0 ==> s.gens == 0)
    && s.used == s.gens % WRAP
    && |s.threads| == |s.arrived|
    && forall i :: 0 <= i < |s.threads| ==> ThreadOk(s, i)
  }

  function Sum(a: seq<nat>): nat {
    if a == [] then 0 else a[0] + Sum(a[1..])
  }

  lemma {:induction false} SumBump(a: seq<nat>, t: nat)
    requires t < |a|
    ensures Sum(a[t := a[t] + 1]) == Sum(a) + 1
  {
    if t > 0 {
      assert a[t := a[t] + 1][1..] == a[1..][t - 1 := a[1..][t - 1] + 1];
      SumBump(a[1..], t - 1);
    } else {
      assert a[t := a[t] + 1][1..] == a[1..];
    }
  }

  lemma {:induction false} SumZeros(k: nat)
    ensures Sum(seq(k, _ => 0)) == 0
  {
    if k > 0 {
      assert seq(k, _ => 0)[1..] == seq(k - 1, _ => 0);
      SumZeros(k - 1);
    }
  }

  lemma NextWrap(gens: nat)
    ensures (gens % WRAP + 1) % WRAP == (gens + 1) % WRAP
  {
  }

  lemma StepInv(s: State, ch: Choice)
    requires Inv(s) && Sum(s.arrived) == s.gens * s.n + s.count
    ensures Inv(Step(s, ch)) && Step(s, ch).n == s.n && |Step(s, ch).threads| == |s.threads|
    ensures var r := Step(s, ch); Sum(r.arrived) == r.gens * r.n + r.count
  {
    var r := Step(s, ch);
    if Enabled(s, ch) {
      NextWrap(s.gens);
      if ch.Call? {
        SumBump(s.arrived, ch.t);
        assert (s.gens + 1) * s.n == s.gens * s.n + s.n;
      }
      forall i | 0 <= i < |r.threads| ensures ThreadOk(r, i) {
        assert ThreadOk(s, i);
      }
    }
  }

  lemma {:induction false} RunInv(s: State, schedule: seq<Choice>)
    requires Inv(s) && Sum(s.arrived) == s.gens * s.n + s.count
    ensures Inv(Run(s, schedule)) && Run(s, schedule).n == s.n && |Run(s, schedule).threads| == |s.threads|
    ensures var r := Run(s, schedule); Sum(r.arrived) == r.gens * r.n + r.count
    decreases |schedule|
  {
    if schedule != [] {
      StepInv(s, schedule[0]);
      RunInv(Step(s, schedule[0]), schedule[1..]);
    }
  }

  /** In every run, with any number of threads: the arrivals add up to the finished generations plus the
      current one, and no sleeper has missed a signal it needed. */
  lemma NoLostWakeup(n: nat, participants: nat, schedule: seq<Choice>)
    requires n > 0
    ensures var s := Run(Init(n, participants), schedule);
            && Sum(s.arrived) == s.gens * n + s.count
            && forall i :: 0 <= i < |s.threads| && s.threads[i].Asleep? && !s.threads[i].signalled ==>
                 MustWait(s, s.threads[i].saved)
  {
    SumZeros(participants);
    RunInv(Init(n, participants), schedule);
    var s := Run(Init(n, participants), schedule);
    forall i | 0 <= i < |s.threads| && s.threads[i].Asleep? && !s.threads[i].signalled
      ensures MustWait(s, s.threads[i].saved)
    {
      assert ThreadOk(s, i);
    }
  }

  /** No thread leaves its generation before all n arrivals of it, even if the counter has wrapped. */
  lemma LeavesAfterAllArrive(n: nat, participants: nat, schedule: seq<Choice>, ch: Choice)
    requires n > 0
    requires var s := Run(Init(n, participants), schedule);
             Enabled(s, ch) && s.threads[ch.t].Asleep? && Step(s, ch).threads[ch.t].Outside?
    ensures var s := Run(Init(n, participants), schedule);
            Sum(s.arrived) >= (s.threads[ch.t].gen + 1) * n
  {
    SumZeros(participants);
    RunInv(Init(n, participants), schedule);
    var s := Run(Init(n, participants), schedule);
    assert ThreadOk(s, ch.t);
    var g := s.threads[ch.t].gen;
    if g < s.gens {
      Multiply(g + 1, s.gens, n);
    } else {
      assert (g + 1) * n == g * n + n;
    }
  }

  lemma Multiply(a: nat, b: nat, n: nat)
    requires a <= b
    ensures a * n <= b * n
  {
  }

  // -- Exactly n threads

  /** The threads that have arrived in the current generation. */
  ghost function Here(s: State): set<nat> {
    set i | 0 <= i < |s.arrived| && s.arrived[i] == s.gens + 1
  }

  /** Each thread is at most one arrival ahead of the generations, and one that is ahead of an unfinished
      generation is still inside. */
  ghost predicate InStep(s: State, i: nat)
    requires i < |s.threads| && i < |s.arrived|
  {
    && s.gens <= s.arrived[i] <= s.gens + 1
    && (s.threads[i].Asleep? ==> s.threads[i].gen + 1 == s.arrived[i])
    && (s.arrived[i] == s.gens + 1 && s.count != s.n ==> s.threads[i].Asleep?)
  }

  ghost predicate Balanced(s: State) {
    && Inv(s)
    && |s.threads| == s.n
    && |Here(s)| == s.count
    && forall i :: 0 <= i < |s.threads| ==> InStep(s, i)
  }

  ghost function Upto(n: nat): (r: set<nat>)
    ensures forall i :: i in r <==> 0 <= i < n
    ensures |r| == n
  {
    if n == 0 then {} else Upto(n - 1) + {n - 1}
  }

  lemma FullMeansAll(s: State)
    requires Balanced(s)
    ensures s.count == s.n <==> forall i :: 0 <= i < |s.arrived| ==> s.arrived[i] == s.gens + 1
  {
    var all := Upto(s.n);
    assert Here(s) <= all;
    if Here(s) != all {
      Sets.Smaller(Here(s), all);
      var i :| i in all && i !in Here(s);
      assert s.arrived[i] != s.gens + 1;
    } else {
      assert |Here(s)| == s.n;
      forall i | 0 <= i < |s.arrived| ensures s.arrived[i] == s.gens + 1 {
        assert i in Here(s);
      }
    }
  }

  lemma ArriveBalanced(s: State, t: nat)
    requires Balanced(s) && Enabled(s, Call(t))
    requires Inv(Arrive(s, t))
    ensures Balanced(Arrive(s, t))
  {
    var r := Arrive(s, t);
    FullMeansAll(s);
    assert InStep(s, t);
    if s.count == s.n {
      assert Here(r) == {t};
    } else {
      assert s.arrived[t] == s.gens;
      assert t !in Here(s) && Here(r) == Here(s) + {t};
    }
    forall i | 0 <= i < |r.threads| ensures InStep(r, i) {
      assert InStep(s, i) && ThreadOk(s, i);
    }
  }

  lemma LookBalanced(s: State, t: nat)
    requires Balanced(s) && t < |s.threads| && s.threads[t].Asleep?
    requires Inv(Look(s, t))
    ensures Balanced(Look(s, t))
  {
    var r := Look(s, t);
    assert Here(r) == Here(s);
    assert InStep(s, t) && ThreadOk(s, t);
    forall i | 0 <= i < |r.threads| ensures InStep(r, i) {
      assert InStep(s, i);
    }
  }

  lemma {:induction false} RunBalanced(s: State, schedule: seq<Choice>)
    requires Balanced(s) && Sum(s.arrived) == s.gens * s.n + s.count
    ensures Balanced(Run(s, schedule)) && Run(s, schedule).n == s.n
    decreases |schedule|
  {
    if schedule != [] {
      var ch := schedule[0];
      StepInv(s, ch);
      if Enabled(s, ch) {
        if ch.Call? { ArriveBalanced(s, ch.t); } else { LookBalanced(s, ch.t); }
      }
      RunBalanced(Step(s, ch), schedule[1..]);
    }
  }

  lemma InitBalanced(n: nat)
    requires n > 0
    ensures Balanced(Init(n, n)) && Sum(Init(n, n).arrived) == 0
  {
    SumZeros(n);
    assert Here(Init(n, n)) == {};
  }

  /** With n threads the counter is at most one ahead of what any sleeper saved, so that the wrap-around
      is harmless: a sleeper has to wait exactly when its own generation is not complete. */
  lemma WrapIsHarmless(n: nat, schedule: seq<Choice>, i: nat)
    requires n > 0 && i < |Run(Init(n, n), schedule).threads| && Run(Init(n, n), schedule).threads[i].Asleep?
    ensures var s := Run(Init(n, n), schedule);
            && s.threads[i].gen <= s.gens <= s.threads[i].gen + 1
            && (MustWait(s, s.threads[i].saved) <==> s.threads[i].gen == s.gens && s.count != n)
  {
    InitBalanced(n);
    RunBalanced(Init(n, n), schedule);
    var s := Run(Init(n, n), schedule);
    assert ThreadOk(s, i) && InStep(s, i);
  }

  /** With n threads, one that is woken leaves exactly when all n arrivals of its generation have been made, and else
      sleeps on as before, without a signal. */
  lemma LeavesIffComplete(n: nat, schedule: seq<Choice>, ch: Choice)
    requires n > 0 && !ch.Call? && Enabled(Run(Init(n, n), schedule), ch)
    ensures var s := Run(Init(n, n), schedule);
            && (Step(s, ch).threads[ch.t].Outside? <==> Sum(s.arrived) >= (s.threads[ch.t].gen + 1) * n)
            && (Step(s, ch).threads[ch.t].Asleep? ==> Step(s, ch).threads[ch.t] == s.threads[ch.t].(signalled := false))
  {
    SumZeros(n);
    RunInv(Init(n, n), schedule);
    WrapIsHarmless(n, schedule, ch.t);
    var s := Run(Init(n, n), schedule);
    Complete(s.gens, n, s.count);
  }

  /** How many arrivals a run has seen. */
  function Calls(s: State, schedule: seq<Choice>): nat
    decreases |schedule|
  {
    if schedule == [] then 0
    else (if Enabled(s, schedule[0]) && schedule[0].Call? then 1 else 0) + Calls(Step(s, schedule[0]), schedule[1..])
  }

  /** Only calls are arrivals, and each is one. */
  lemma {:induction false} ArrivalsAreCalls(s: State, schedule: seq<Choice>)
    requires |s.threads| == |s.arrived|
    ensures Sum(Run(s, schedule).arrived) == Sum(s.arrived) + Calls(s, schedule)
    decreases |schedule|
  {
    if schedule != [] {
      var ch := schedule[0];
      if Enabled(s, ch) && ch.Call? {
        SumBump(s.arrived, ch.t);
      }
      ArrivalsAreCalls(Step(s, ch), schedule[1..]);
    }
  }

  /** A caller goes on at once exactly when it is the last of its generation, and then wakes every sleeper. */
  lemma LastArrivalWakesAll(n: nat, participants: nat, schedule: seq<Choice>, t: nat)
    requires n > 0 && Enabled(Run(Init(n, participants), schedule), Call(t))
    ensures var r := Step(Run(Init(n, participants), schedule), Call(t));
            && (r.threads[t].Outside? <==> Sum(r.arrived) == (r.gens + 1) * n)
            && (r.threads[t].Outside? ==> forall i :: 0 <= i < |r.threads| && r.threads[i].Asleep? ==> r.threads[i].signalled)
            && (r.threads[t].Asleep? ==> r.threads[t].gen == r.gens && !r.threads[t].signalled)
  {
    SumZeros(participants);
    var s := Run(Init(n, participants), schedule);
    RunInv(Init(n, participants), schedule);
    StepInv(s, Call(t));
    CallWakes(s, t);
    var r := Step(s, Call(t));
    Complete(r.gens, n, r.count);
  }

  lemma Complete(gens: nat, n: nat, count: nat)
    requires count <= n
    ensures gens * n + count >= (gens + 1) * n <==> count == n
    ensures gens * n + count <= (gens + 1) * n
  {
  }

  lemma CallWakes(s: State, t: nat)
    requires Enabled(s, Call(t))
    ensures var r := Step(s, Call(t));
            && (r.threads[t].Outside? <==> r.count == r.n)
            && (r.threads[t].Outside? ==> forall i :: 0 <= i < |r.threads| && r.threads[i].Asleep? ==> r.threads[i].signalled)
            && (r.threads[t].Asleep? ==> r.threads[t].gen == r.gens && !r.threads[t].signalled)
  {
  }

  /** With n threads somebody can always move: not all of them are asleep without a signal. */
  lemma SomebodyMoves(n: nat, schedule: seq<Choice>)
    requires n > 0
    ensures var s := Run(Init(n, n), schedule);
            exists t :: Enabled(s, Call(t)) || Enabled(s, Wake(t))
  {
    InitBalanced(n);
    RunBalanced(Init(n, n), schedule);
    var s := Run(Init(n, n), schedule);
    FullMeansAll(s);
    var t := if s.count == n then 0 else Absent(s, 0);
    assert InStep(s, t) && ThreadOk(s, t);
    assert Enabled(s, Call(t)) || Enabled(s, Wake(t));
  }

  /** A thread that has not arrived in the current generation. */
  ghost function Absent(s: State, i: nat): (t: nat)
    requires exists j :: i <= j < |s.arrived| && s.arrived[j] != s.gens + 1
    ensures t < |s.arrived| && s.arrived[t] != s.gens + 1
    decreases |s.arrived| - i
  {
    if s.arrived[i] != s.gens + 1 then i else Absent(s, i + 1)
  }
}
