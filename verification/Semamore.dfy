/** The semaphore that is bounded on both sides, as a machine whose steps are what a thread does while it
    holds the mutex. It wakes its sleepers only when the value leaves one of its bounds. */
module Semamore {
  import opened Monitors

  datatype Thread = Outside | Waiting(signalled: bool) | Posting(signalled: bool)

  function Signal(t: Thread): Thread {
    if t.Waiting? then Waiting(true) else if t.Posting? then Posting(true) else t
  }

  /** waits and posts count the calls that have gone through. */
  datatype State = State(value: int, max: int, threads: seq<Thread>, waits: nat, posts: nat)

  function Init(value: int, max: int, participants: nat): State {
    State(value, max, seq(participants, _ => Outside), 0, 0)
  }

  function Wait(s: State, t: nat): State
    requires t < |s.threads|
  {
    if s.value == 0 then s.(threads := s.threads[t := Waiting(false)])
    else
      var value := s.value - 1;
      var ts := if value == s.max - 1 then Broadcast(s.threads, Signal) else s.threads;
      s.(value := value, waits := s.waits + 1, threads := ts[t := Outside])
  }

  function Post(s: State, t: nat): State
    requires t < |s.threads|
  {
    if s.value == s.max then s.(threads := s.threads[t := Posting(false)])
    else
      var value := s.value + 1;
      var ts := if value == 1 then Broadcast(s.threads, Signal) else s.threads;
      s.(value := value, posts := s.posts + 1, threads := ts[t := Outside])
  }

  datatype Choice = CallWait(t: nat) | CallPost(t: nat) | Wake(t: nat) | Spurious(t: nat)

  predicate Enabled(s: State, ch: Choice) {
    && ch.t < |s.threads|
    && match ch
       case CallWait(t) => s.threads[t].Outside?
       case CallPost(t) => s.threads[t].Outside?
       case Wake(t) => (s.threads[t].Waiting? && s.threads[t].signalled) || (s.threads[t].Posting? && s.threads[t].signalled)
       case Spurious(t) => !s.threads[t].Outside?
  }

  function Step(s: State, ch: Choice): State {
    if !Enabled(s, ch) then s
    else
      match ch
      case CallWait(t) => Wait(s, t)
      case CallPost(t) => Post(s, t)
      case _ => if s.threads[ch.t].Waiting? then Wait(s, ch.t) else Post(s, ch.t)
  }

  function Run(s: State, schedule: seq<Choice>): State
    decreases |schedule|
  {
    if schedule == [] then s else Run(Step(s, schedule[0]), schedule[1..])
  }

  ghost predicate ThreadOk(s: State, t: nat)
    requires t < |s.threads|
  {
    && (s.threads[t].Waiting? && !s.threads[t].signalled ==> s.value == 0)
    && (s.threads[t].Posting? && !s.threads[t].signalled ==> s.value == s.max)
  }

  ghost predicate Inv(s: State, first: int) {
    && s.value == first + s.posts - s.waits
    && (0 <= first <= s.max ==> 0 <= s.value <= s.max)
    && forall t :: 0 <= t < |s.threads| ==> ThreadOk(s, t)
  }

  lemma StepInv(s: State, first: int, ch: Choice)
    requires Inv(s, first)
    ensures Inv(Step(s, ch), first) && Step(s, ch).max == s.max
  {
    var r := Step(s, ch);
    forall t | 0 <= t < |r.threads| ensures ThreadOk(r, t) {
      assert t < |s.threads| ==> ThreadOk(s, t);
    }
  }

  lemma {:induction false} RunInv(s: State, first: int, schedule: seq<Choice>)
    requires Inv(s, first)
    ensures Inv(Run(s, schedule), first) && Run(s, schedule).max == s.max
    decreases |schedule|
  {
    if schedule != [] {
      StepInv(s, first, schedule[0]);
      RunInv(Step(s, schedule[0]), first, schedule[1..]);
    }
  }

  /** The value counts posts and waits, and never leaves its bounds once it is within them. */
  lemma ValueCounts(value: int, max: int, participants: nat, schedule: seq<Choice>)
    ensures var s := Run(Init(value, max, participants), schedule);
            && s.value == value + s.posts - s.waits
            && (0 <= value <= max ==> 0 <= s.value <= max)
  {
    RunInv(Init(value, max, participants), value, schedule);
  }

  /** Waking everyone only when the value leaves a bound is enough: a sleeper nobody has signalled still has
      to wait, and with a positive bound waiters and posters are never both left asleep. This
      needs nothing of the initial value. */
  lemma NoLostWakeup(value: int, max: int, participants: nat, schedule: seq<Choice>, t: nat, u: nat)
    requires var s := Run(Init(value, max, participants), schedule); t < |s.threads| && u < |s.threads|
    ensures var s := Run(Init(value, max, participants), schedule);
            && (s.threads[t].Waiting? && !s.threads[t].signalled ==> s.value == 0)
            && (s.threads[u].Posting? && !s.threads[u].signalled ==> s.value == max)
            && (max > 0 ==>
                  !(s.threads[t].Waiting? && !s.threads[t].signalled && s.threads[u].Posting? && !s.threads[u].signalled))
  {
    RunInv(Init(value, max, participants), value, schedule);
    var s := Run(Init(value, max, participants), schedule);
    assert ThreadOk(s, t) && ThreadOk(s, u);
  }

  // -- Every call goes through once, as what it was called as

  predicate IsWaiting(t: Thread) { t.Waiting? }
  predicate IsPosting(t: Thread) { t.Posting? }

  /** How many waits and posts the threads of a run have called. */
  function WaitsCalled(s: State, schedule: seq<Choice>): nat
    decreases |schedule|
  {
    if schedule == [] then 0
    else (if Enabled(s, schedule[0]) && schedule[0].CallWait? then 1 else 0) + WaitsCalled(Step(s, schedule[0]), schedule[1..])
  }

  function PostsCalled(s: State, schedule: seq<Choice>): nat
    decreases |schedule|
  {
    if schedule == [] then 0
    else (if Enabled(s, schedule[0]) && schedule[0].CallPost? then 1 else 0) + PostsCalled(Step(s, schedule[0]), schedule[1..])
  }

  lemma StepCounts(s: State, ch: Choice)
    ensures var r := Step(s, ch);
            && r.waits + Count(r.threads, IsWaiting) ==
                 s.waits + Count(s.threads, IsWaiting) + (if Enabled(s, ch) && ch.CallWait? then 1 else 0)
            && r.posts + Count(r.threads, IsPosting) ==
                 s.posts + Count(s.threads, IsPosting) + (if Enabled(s, ch) && ch.CallPost? then 1 else 0)
  {
    var r := Step(s, ch);
    if Enabled(s, ch) {
      var ts := Broadcast(s.threads, Signal);
      CountBroadcast(s.threads, Signal, IsWaiting);
      CountBroadcast(s.threads, Signal, IsPosting);
      CountUpdate(s.threads, IsWaiting, ch.t, r.threads[ch.t]);
      CountUpdate(s.threads, IsPosting, ch.t, r.threads[ch.t]);
      CountUpdate(ts, IsWaiting, ch.t, r.threads[ch.t]);
      CountUpdate(ts, IsPosting, ch.t, r.threads[ch.t]);
    }
  }

  lemma {:induction false} RunCounts(s: State, schedule: seq<Choice>)
    ensures var r := Run(s, schedule);
            && r.waits + Count(r.threads, IsWaiting) == s.waits + Count(s.threads, IsWaiting) + WaitsCalled(s, schedule)
            && r.posts + Count(r.threads, IsPosting) == s.posts + Count(s.threads, IsPosting) + PostsCalled(s, schedule)
    decreases |schedule|
  {
    if schedule != [] {
      StepCounts(s, schedule[0]);
      RunCounts(Step(s, schedule[0]), schedule[1..]);
    }
  }

  /** In every run the waits that were called have gone through or sleep, and so have the posts; the value is the
      first one plus the posts less the waits that went through. */
  lemma CallsAreConserved(value: int, max: int, participants: nat, schedule: seq<Choice>)
    ensures var first, s := Init(value, max, participants), Run(Init(value, max, participants), schedule);
            && s.value == value + (PostsCalled(first, schedule) - Count(s.threads, IsPosting))
                                - (WaitsCalled(first, schedule) - Count(s.threads, IsWaiting))
  {
    var first := Init(value, max, participants);
    CountNone(participants, Outside, IsWaiting);
    CountNone(participants, Outside, IsPosting);
    RunCounts(first, schedule);
    ValueCounts(value, max, participants, schedule);
  }

  /** A thread that holds the mutex goes through exactly when the value is not at its bound, woken or not. */
  lemma WhoGoesThrough(s: State, ch: Choice)
    requires Enabled(s, ch)
    ensures var r, waits := Step(s, ch), ch.CallWait? || s.threads[ch.t].Waiting?;
            if waits then if s.value == 0 then r.threads[ch.t] == Waiting(false) && r.value == s.value
                          else r.threads[ch.t] == Outside && r.value == s.value - 1
            else if s.value == s.max then r.threads[ch.t] == Posting(false) && r.value == s.value
            else r.threads[ch.t] == Outside && r.value == s.value + 1
  {
  }
}
