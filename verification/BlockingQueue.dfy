/** The blocking queue: the linked list behind it, as objects, and the threads that push and pull through
    it, as a machine whose steps are what a thread does while it holds the mutex. */
module BlockingQueue {
  import opened Monitors

  // -- The linked list

  class Node {
    const data: int
    var next: Node?

    constructor (data: int)
      ensures this.data == data && next == null
    {
      this.data, next := data, null;
    }
  }

  class LinkedQueue {
    var head: Node?
    var tail: Node?
    var size: int
    ghost var spine: seq<Node>

    /** From head the next pointers run through the spine to tail, in exactly size nodes. */
    ghost predicate Valid()
      reads this, spine
    {
      && size == |spine|
      && head == (if spine == [] then null else spine[0])
      && tail == (if spine == [] then null else spine[|spine| - 1])
      && (forall i, j :: 0 <= i < j < |spine| ==> spine[i] != spine[j])
      && (forall i :: 0 <= i < |spine| ==> LinkOk(i))
    }

    ghost predicate LinkOk(i: int)
      requires 0 <= i < |spine|
      reads this, spine
    {
      spine[i].next == if i + 1 < |spine| then spine[i + 1] else null
    }

    ghost function Contents(): (r: seq<int>)
      reads this, spine
      ensures |r| == |spine|
    {
      seq(|spine|, i requires 0 <= i < |spine| reads this, spine => spine[i].data)
    }

    constructor ()
      ensures Valid() && Contents() == []
    {
      head, tail, size, spine := null, null, 0, [];
    }

    /** The part of queue_push after the wait. */
    method Append(data: int)
      requires Valid()
      modifies this, spine
      ensures Valid() && Contents() == old(Contents()) + [data] && size == old(size) + 1
      ensures fresh(set n | n in spine && n !in old(spine))
    {
      var node := new Node(data);
      ghost var s := spine;
      if head == null {
        head := node;
        tail := node;
      } else {
        assert LinkOk(|spine| - 1);
        tail.next := node;
        tail := node;
      }
      size := size + 1;
      spine := s + [node];
      forall i | 0 <= i < |spine| ensures LinkOk(i) {
        if i < |s| - 1 {
          assert spine[i] == s[i] && s[i] != s[|s| - 1];
          assert old(LinkOk(i));
        }
      }
    }

    /** The part of queue_pull after the wait. */
    method TakeFirst() returns (data: int)
      requires Valid() && size > 0
      modifies this
      ensures Valid() && [data] + Contents() == old(Contents()) && size == old(size) - 1
      ensures spine == old(spine)[1..]
    {
      ghost var s := spine;
      assert LinkOk(0);
      assert forall i :: 0 <= i < |s| ==> old(LinkOk(i));
      data := head.data;
      var next := head.next;
      if size == 1 {
        head := null;
        tail := null;
      } else {
        head := next;
      }
      size := size - 1;
      spine := s[1..];
      forall i | 0 <= i < |spine| ensures LinkOk(i) {
        assert old(LinkOk(i + 1)) && spine[i] == s[i + 1];
      }
    }
  }

  // -- The threads

  /** A thread outside the queue, or asleep in a push of a value or in a pull. */
  datatype Thread = Outside | Pushing(data: int, signalled: bool) | Pulling(signalled: bool) {
    predicate Asleep() { !Outside? }
  }

  function Signal(t: Thread): Thread {
    if t.Pushing? then Pushing(t.data, true) else if t.Pulling? then Pulling(true) else t
  }

  /** max is max_size, not positive when there is no bound; pushed and pulled are what has gone in and come
      out, in the order in which the mutex was held. */
  datatype State = State(max: int, items: seq<int>, threads: seq<Thread>, pushed: seq<int>, pulled: seq<int>) {
    predicate Full() { max > 0 && |items| == max }
    predicate Drained() { items == [] }
  }

  function Init(max: int, participants: nat): State {
    State(max, [], seq(participants, _ => Outside), [], [])
  }

  /** Thread t holds the mutex in a push: it sleeps, or appends, always waking everyone, and leaves. */
  function Push(s: State, t: nat, data: int): State
    requires t < |s.threads|
  {
    if s.Full() then s.(threads := s.threads[t := Pushing(data, false)])
    else s.(items := s.items + [data], pushed := s.pushed + [data], threads := Broadcast(s.threads, Signal)[t := Outside])
  }

  /** Thread t holds the mutex in a pull: it sleeps, or takes the first item, waking everyone if there is
      a bound, and leaves. */
  function Pull(s: State, t: nat): State
    requires t < |s.threads|
  {
    if s.Drained() then s.(threads := s.threads[t := Pulling(false)])
    else
      var rest := s.items[1..];
      var ts := if s.max > 0 && |rest| != s.max then Broadcast(s.threads, Signal) else s.threads;
      s.(items := rest, pulled := s.pulled + [s.items[0]], threads := ts[t := Outside])
  }

  datatype Choice = CallPush(t: nat, data: int) | CallPull(t: nat) | Wake(t: nat) | Spurious(t: nat)

  predicate Enabled(s: State, ch: Choice) {
    && ch.t < |s.threads|
    && match ch
       case CallPush(t, _) => s.threads[t].Outside?
       case CallPull(t) => s.threads[t].Outside?
       case Wake(t) => (s.threads[t].Pushing? && s.threads[t].signalled) || (s.threads[t].Pulling? && s.threads[t].signalled)
       case Spurious(t) => s.threads[t].Asleep()
  }

  function Step(s: State, ch: Choice): State {
    if !Enabled(s, ch) then s
    else
      match ch
      case CallPush(t, data) => Push(s, t, data)
      case CallPull(t) => Pull(s, t)
      case _ => if s.threads[ch.t].Pushing? then Push(s, ch.t, s.threads[ch.t].data) else Pull(s, ch.t)
  }

  function Run(s: State, schedule: seq<Choice>): State
    decreases |schedule|
  {
    if schedule == [] then s else Run(Step(s, schedule[0]), schedule[1..])
  }

  /** A sleeper nobody has signalled still has to wait. */
  ghost predicate ThreadOk(s: State, t: nat)
    requires t < |s.threads|
  {
    && (s.threads[t].Pushing? && !s.threads[t].signalled ==> s.Full())
    && (s.threads[t].Pulling? && !s.threads[t].signalled ==> s.Drained())
  }

  ghost predicate Inv(s: State) {
    && s.pulled + s.items == s.pushed
    && (s.max > 0 ==> |s.items| <= s.max)
    && forall t :: 0 <= t < |s.threads| ==> ThreadOk(s, t)
  }

  lemma PushInv(s: State, t: nat, data: int)
    requires Inv(s) && t < |s.threads|
    ensures Inv(Push(s, t, data))
  {
    var r := Push(s, t, data);
    assert s.pulled + (s.items + [data]) == (s.pulled + s.items) + [data];
    forall u | 0 <= u < |r.threads| ensures ThreadOk(r, u) { assert ThreadOk(s, u); }
  }

  lemma PullInv(s: State, t: nat)
    requires Inv(s) && t < |s.threads|
    ensures Inv(Pull(s, t))
  {
    var r := Pull(s, t);
    if !s.Drained() {
      assert (s.pulled + [s.items[0]]) + s.items[1..] == s.pulled + s.items;
    }
    forall u | 0 <= u < |r.threads| ensures ThreadOk(r, u) { assert ThreadOk(s, u); }
  }

  lemma {:induction false} RunInv(s: State, schedule: seq<Choice>)
    requires Inv(s)
    ensures Inv(Run(s, schedule)) && Run(s, schedule).max == s.max
    decreases |schedule|
  {
    if schedule != [] {
      var ch := schedule[0];
      if Enabled(s, ch) {
        match ch {
          case CallPush(t, data) => PushInv(s, t, data);
          case CallPull(t) => PullInv(s, t);
          case _ => if s.threads[ch.t].Pushing? { PushInv(s, ch.t, s.threads[ch.t].data); } else { PullInv(s, ch.t); }
        }
      }
      RunInv(Step(s, ch), schedule[1..]);
    }
  }

  /** First in, first out, and within the bound: whatever the threads do, the values pulled followed by those
      in the queue are the values pushed. */
  lemma FirstInFirstOut(max: int, participants: nat, schedule: seq<Choice>)
    ensures var s := Run(Init(max, participants), schedule);
            s.pulled + s.items == s.pushed && (max > 0 ==> |s.items| <= max)
  {
    RunInv(Init(max, participants), schedule);
  }

  /** No wake-up is lost, and with a bound a pusher and a puller are never both left asleep. */
  lemma NoLostWakeup(max: int, participants: nat, schedule: seq<Choice>, t: nat, u: nat)
    requires var s := Run(Init(max, participants), schedule); t < |s.threads| && u < |s.threads|
    ensures var s := Run(Init(max, participants), schedule);
            && (s.threads[t].Pushing? && !s.threads[t].signalled ==> max > 0 && |s.items| == max)
            && (s.threads[u].Pulling? && !s.threads[u].signalled ==> s.items == [])
            && !(s.threads[t].Pushing? && !s.threads[t].signalled && s.threads[u].Pulling? && !s.threads[u].signalled)
  {
    RunInv(Init(max, participants), schedule);
    var s := Run(Init(max, participants), schedule);
    assert ThreadOk(s, t) && ThreadOk(s, u);
  }

  // -- Every call goes through once, with its own value

  /** Asleep in a push of value v. */
  function Pushes(v: int): Thread -> bool {
    (t: Thread) => t.Pushing? && t.data == v
  }

  predicate IsPulling(t: Thread) { t.Pulling? }

  /** How often value v was given to a push in a run. */
  function PushesCalled(s: State, schedule: seq<Choice>, v: int): nat
    decreases |schedule|
  {
    if schedule == [] then 0
    else
      (if Enabled(s, schedule[0]) && schedule[0].CallPush? && schedule[0].data == v then 1 else 0)
      + PushesCalled(Step(s, schedule[0]), schedule[1..], v)
  }

  function PullsCalled(s: State, schedule: seq<Choice>): nat
    decreases |schedule|
  {
    if schedule == [] then 0
    else (if Enabled(s, schedule[0]) && schedule[0].CallPull? then 1 else 0) + PullsCalled(Step(s, schedule[0]), schedule[1..])
  }

  lemma HeldCounts(s: State, t: nat, x: Thread, v: int)
    requires t < |s.threads|
    ensures Count(Broadcast(s.threads, Signal)[t := x], Pushes(v)) == Count(s.threads[t := x], Pushes(v))
    ensures Count(s.threads[t := x], Pushes(v)) + (if Pushes(v)(s.threads[t]) then 1 else 0) ==
              Count(s.threads, Pushes(v)) + (if Pushes(v)(x) then 1 else 0)
  {
    CountBroadcast(s.threads, Signal, Pushes(v));
    CountUpdate(s.threads, Pushes(v), t, x);
    CountUpdate(Broadcast(s.threads, Signal), Pushes(v), t, x);
  }

  lemma PushedOrAsleep(s: State, ch: Choice, v: int)
    ensures var r := Step(s, ch);
            multiset(r.pushed)[v] + Count(r.threads, Pushes(v)) ==
              multiset(s.pushed)[v] + Count(s.threads, Pushes(v))
              + if Enabled(s, ch) && ch.CallPush? && ch.data == v then 1 else 0
  {
    var r := Step(s, ch);
    if Enabled(s, ch) {
      HeldCounts(s, ch.t, r.threads[ch.t], v);
    }
  }

  lemma PulledOrAsleep(s: State, ch: Choice)
    ensures var r := Step(s, ch);
            |r.pulled| + Count(r.threads, IsPulling) ==
              |s.pulled| + Count(s.threads, IsPulling) + if Enabled(s, ch) && ch.CallPull? then 1 else 0
  {
    var r := Step(s, ch);
    if Enabled(s, ch) {
      CountBroadcast(s.threads, Signal, IsPulling);
      CountUpdate(s.threads, IsPulling, ch.t, r.threads[ch.t]);
      CountUpdate(Broadcast(s.threads, Signal), IsPulling, ch.t, r.threads[ch.t]);
    }
  }

  lemma {:induction false} RunConserves(s: State, schedule: seq<Choice>, v: int)
    ensures var r := Run(s, schedule);
            && multiset(r.pushed)[v] + Count(r.threads, Pushes(v)) ==
                 multiset(s.pushed)[v] + Count(s.threads, Pushes(v)) + PushesCalled(s, schedule, v)
            && |r.pulled| + Count(r.threads, IsPulling) ==
                 |s.pulled| + Count(s.threads, IsPulling) + PullsCalled(s, schedule)
    decreases |schedule|
  {
    if schedule != [] {
      PushedOrAsleep(s, schedule[0], v);
      PulledOrAsleep(s, schedule[0]);
      RunConserves(Step(s, schedule[0]), schedule[1..], v);
    }
  }

  /** In every run, each value was given to a push as often as it was pulled, is in the queue, or is what a sleeping
      pusher waits to push; and as many values were pulled as pulls were called, less those that still sleep. */
  lemma ValuesAreConserved(max: int, participants: nat, schedule: seq<Choice>, v: int)
    ensures var first, s := Init(max, participants), Run(Init(max, participants), schedule);
            && multiset(s.pulled)[v] + multiset(s.items)[v] + Count(s.threads, Pushes(v)) ==
                 PushesCalled(first, schedule, v)
            && |s.pulled| + Count(s.threads, IsPulling) == PullsCalled(first, schedule)
  {
    CountNone(participants, Outside, Pushes(v));
    CountNone(participants, Outside, IsPulling);
    RunConserves(Init(max, participants), schedule, v);
    FirstInFirstOut(max, participants, schedule);
    var s := Run(Init(max, participants), schedule);
    assert multiset(s.pulled + s.items) == multiset(s.pulled) + multiset(s.items);
  }

  /** What a thread that is woken does: a pusher stores its own value unless the queue is full, a puller takes the
      first one unless the queue is empty, and else it sleeps again. */
  lemma WokenGoesOn(s: State, ch: Choice)
    requires Enabled(s, ch) && (ch.Wake? || ch.Spurious?)
    ensures var r, t := Step(s, ch), s.threads[ch.t];
            if t.Pushing? then
              if s.max > 0 && |s.items| == s.max then r.items == s.items && r.threads[ch.t] == Pushing(t.data, false)
              else r.items == s.items + [t.data] && r.threads[ch.t] == Outside
            else if s.items == [] then r.items == s.items && r.threads[ch.t] == Pulling(false)
            else
              && r.items == s.items[1..] && r.pulled == s.pulled + [s.items[0]] && r.threads[ch.t] == Outside
  {
  }

  // -- The threads work on the linked list

  /** What queue_push does to the list while thread t holds the mutex, and whether it wakes the others. */
  method PushHolding(q: LinkedQueue, t: nat, data: int, maxSize: int, ghost s: State) returns (sleeps: bool, wakes: bool)
    requires q.Valid() && q.Contents() == s.items && maxSize == s.max && t < |s.threads|
    modifies q, q.spine
    ensures q.Valid() && q.Contents() == Push(s, t, data).items
    ensures sleeps ==> !wakes
    ensures !sleeps ==> Push(s, t, data).pushed == s.pushed + [data]
    ensures Push(s, t, data).threads ==
              if sleeps then s.threads[t := Pushing(data, false)]
              else (if wakes then Broadcast(s.threads, Signal) else s.threads)[t := Outside]
  {
    sleeps, wakes := maxSize > 0 && q.size == maxSize, false;
    if !sleeps {
      q.Append(data);
      wakes := q.size != 0;
    }
  }

  /** The same for queue_pull. */
  method PullHolding(q: LinkedQueue, t: nat, maxSize: int, ghost s: State)
    returns (sleeps: bool, wakes: bool, data: int)
    requires q.Valid() && q.Contents() == s.items && maxSize == s.max && t < |s.threads|
    modifies q, q.spine
    ensures q.Valid() && q.Contents() == Pull(s, t).items
    ensures sleeps ==> !wakes
    ensures !sleeps ==> Pull(s, t).pulled == s.pulled + [data]
    ensures Pull(s, t).threads ==
              if sleeps then s.threads[t := Pulling(false)]
              else (if wakes then Broadcast(s.threads, Signal) else s.threads)[t := Outside]
  {
    sleeps, wakes, data := q.size == 0, false, 0;
    if !sleeps {
      data := q.TakeFirst();
      wakes := maxSize > 0 && q.size != maxSize;
    }
  }
}
