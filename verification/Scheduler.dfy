/** The CPU scheduler: six schemes over one priority queue, and the times it accounts for. */
module Scheduler {

  datatype Scheme = FCFS | PRI | PPRI | PSRTF | RR | SJF

  datatype Option<T> = None | Some(value: T)

  type JobId = nat

  /** job_info: the metadata of a job. A start of -1 means the job never ran. */
  datatype Info = Info(arrival: real, burst: real, remain: real, start: real, lastStart: real, priority: int)

  predicate Preemptive(s: Scheme) {
    s == PPRI || s == PSRTF || s == RR
  }

  function ThreeWay(x: real, y: real): int {
    if x == y then 0 else if x > y then 1 else -1
  }

  /** What a scheme looks at before the arrival time. */
  function Key(s: Scheme, a: Info): real {
    match s
    case FCFS | RR => 0.0
    case PRI | PPRI => a.priority as real
    case PSRTF => a.remain
    case SJF => a.burst
  }

  /** The comparer of a scheme; ties go to the earlier arrival, and round robin never compares. */
  function Compare(s: Scheme, a: Info, b: Info): int {
    if s == RR then 1
    else if Key(s, a) == Key(s, b) then ThreeWay(a.arrival, b.arrival)
    else ThreeWay(Key(s, a), Key(s, b))
  }

  /** The jobs of a queue. */
  ghost function Members(q: seq<JobId>): set<JobId> {
    if q == [] then {} else {q[0]} + Members(q[1..])
  }

  lemma {:induction false} MembersAre(q: seq<JobId>, j: JobId)
    ensures j in Members(q) <==> j in q
  {
    if q != [] {
      MembersAre(q[1..], j);
      assert q == [q[0]] + q[1..];
    }
  }

  /** priqueue_offer: before the first job that the new one precedes, so after its equals. */
  function Insert(s: Scheme, info: map<JobId, Info>, q: seq<JobId>, j: JobId): (r: seq<JobId>)
    requires j in info && Members(q) <= info.Keys
    ensures Members(r) == Members(q) + {j}
  {
    if q == [] then [j]
    else if Compare(s, info[j], info[q[0]]) < 0 then
      assert ([j] + q)[1..] == q;
      [j] + q
    else
      assert ([q[0]] + Insert(s, info, q[1..], j))[1..] == Insert(s, info, q[1..], j);
      [q[0]] + Insert(s, info, q[1..], j)
  }

  /** A smaller key goes first, then an earlier arrival. */
  predicate NotAfter(s: Scheme, a: Info, b: Info) {
    Key(s, a) < Key(s, b) || (Key(s, a) == Key(s, b) && a.arrival <= b.arrival)
  }

  /** Job j goes before all of a set of jobs, none of which it is. */
  ghost predicate First(s: Scheme, info: map<JobId, Info>, j: JobId, others: set<JobId>) {
    && j in info && j !in others && others <= info.Keys
    && (s == RR || forall k :: k in others ==> NotAfter(s, info[j], info[k]))
  }

  /** No job is in the queue twice, and none goes before one ahead of it. */
  ghost predicate Ordered(s: Scheme, info: map<JobId, Info>, q: seq<JobId>) {
    q == [] || (First(s, info, q[0], Members(q[1..])) && Ordered(s, info, q[1..]))
  }

  lemma {:induction false} OrderedSame(s: Scheme, info: map<JobId, Info>, other: map<JobId, Info>, q: seq<JobId>)
    requires Ordered(s, info, q) && Members(q) <= info.Keys && Members(q) <= other.Keys
    requires forall k :: k in Members(q) ==> info[k] == other[k]
    ensures Ordered(s, other, q)
  {
    if q != [] {
      OrderedSame(s, info, other, q[1..]);
    }
  }

  lemma {:induction false} InsertOrdered(s: Scheme, info: map<JobId, Info>, q: seq<JobId>, j: JobId)
    requires j in info && j !in Members(q) && Members(q) <= info.Keys && Ordered(s, info, q)
    ensures Ordered(s, info, Insert(s, info, q, j))
  {
    if q != [] {
      if Compare(s, info[j], info[q[0]]) < 0 {
        assert First(s, info, j, Members(q));
        assert ([j] + q)[1..] == q;
      } else {
        InsertOrdered(s, info, q[1..], j);
        var r := Insert(s, info, q[1..], j);
        assert First(s, info, q[0], Members(r));
        assert ([q[0]] + r)[1..] == r;
      }
    }
  }

  /** A job goes behind all that are not after it, its equals among them. */
  lemma {:induction false} InsertBehindEquals(s: Scheme, info: map<JobId, Info>, q: seq<JobId>, j: JobId)
    requires s != RR && j in info && Members(q) <= info.Keys
    requires forall k :: k in Members(q) ==> NotAfter(s, info[k], info[j])
    ensures Insert(s, info, q, j) == q + [j]
  {
    if q != [] { InsertBehindEquals(s, info, q[1..], j); }
  }

  /** Round robin is first in, first out. */
  lemma {:induction false} InsertLast(info: map<JobId, Info>, q: seq<JobId>, j: JobId)
    requires j in info && Members(q) <= info.Keys
    ensures Insert(RR, info, q, j) == q + [j]
  {
    if q != [] { InsertLast(info, q[1..], j); }
  }

  /** Where a job is; a job that needs no more time has left the queue. */
  datatype Place = Queued | Running | Gone(at: real)

  /** The true times of a job: CPU time given, time spent in the queue, and when it last entered the queue. */
  datatype Account = Account(place: Place, given: real, idle: real, since: real)

  /** The time since its arrival is the time a job was queued and the time it was given; what remains and what was
      given make up its burst. */
  ghost predicate JobOk(s: Scheme, i: Info, b: Account, now: real) {
    && (Preemptive(s) ==> i.remain + b.given == i.burst)
    && (i.start == -1.0 || 0.0 <= i.start)
    && (!b.place.Queued? ==> 0.0 <= i.start)
    && (!Preemptive(s) && !b.place.Gone? ==> b.given == 0.0)
    && match b.place
       case Queued =>
         i.arrival + b.idle + b.given == b.since <= now && (!Preemptive(s) ==> i.start == -1.0)
       case Running =>
         i.arrival + b.idle + b.given == i.lastStart <= now && (!Preemptive(s) ==> i.start == i.lastStart)
       case Gone(at) =>
         i.arrival + b.idle + b.given == at <= now && i.burst <= b.given
  }

  /** What the scheduler and its driver know: running is the job the driver runs, now the time of the last call. */
  datatype State = State(
    queue: seq<JobId>, info: map<JobId, Info>, books: map<JobId, Account>, running: Option<JobId>, now: real)

  const Idle := State([], map[], map[], None, 0.0)

  ghost predicate Placed(j: JobId, b: Account, queued: set<JobId>, running: Option<JobId>) {
    (b.place == Queued <==> j in queued) && (b.place == Running <==> running == Some(j))
  }

  /** Every job with metadata is in the queue once, or is the one that runs, or has left. */
  ghost predicate Ok(s: Scheme, st: State) {
    && Ordered(s, st.info, st.queue) && st.books.Keys == st.info.Keys && 0.0 <= st.now
    && Members(st.queue) <= st.books.Keys && (st.running.Some? ==> st.running.value in st.books)
    && (forall j :: j in st.books ==>
          JobOk(s, st.info[j], st.books[j], st.now) && Placed(j, st.books[j], Members(st.queue), st.running))
  }

  // -- What the parts of a call do

  ghost function Later(st: State, time: real): State {
    st.(now := time)
  }

  lemma LaterOk(s: Scheme, st: State, time: real)
    requires Ok(s, st) && st.now <= time
    ensures Ok(s, Later(st, time))
  {
    forall j | j in st.books ensures JobOk(s, st.info[j], st.books[j], time) {
      assert JobOk(s, st.info[j], st.books[j], st.now);
    }
  }

  /** Job j enters the queue. */
  ghost function Joined(s: Scheme, st: State, j: JobId, i: Info, b: Account): State
    requires Members(st.queue) <= st.info.Keys
  {
    var info := st.info[j := i];
    st.(queue := Insert(s, info, st.queue, j), info := info, books := st.books[j := b])
  }

  lemma InsertNew(s: Scheme, q: seq<JobId>, info: map<JobId, Info>, j: JobId, i: Info)
    requires Ordered(s, info, q) && Members(q) <= info.Keys && j !in info
    ensures Ordered(s, info[j := i], Insert(s, info[j := i], q, j))
    ensures Members(Insert(s, info[j := i], q, j)) == Members(q) + {j}
  {
    OrderedSame(s, info, info[j := i], q);
    InsertOrdered(s, info[j := i], q, j);
  }

  lemma JoinedOk(s: Scheme, st: State, j: JobId, i: Info, b: Account)
    requires Ok(s, st) && j !in st.books && b.place == Queued && JobOk(s, i, b, st.now)
    ensures Ok(s, Joined(s, st, j, i, b))
  {
    InsertNew(s, st.queue, st.info, j, i);
  }

  /** Job j, which is not in the queue, is taken off the books. */
  ghost function Without(st: State, j: JobId): State {
    st.(info := st.info - {j}, books := st.books - {j}, running := if st.running == Some(j) then None else st.running)
  }

  lemma WithoutOk(s: Scheme, st: State, j: JobId)
    requires Ok(s, st) && j in st.books && st.books[j].place != Queued
    ensures Ok(s, Without(st, j))
  {
    OrderedSame(s, st.info, st.info - {j}, st.queue);
  }

  /** Job j has left: its metadata is kept until it is reported as finished. */
  ghost function Kept(st: State, j: JobId, i: Info, b: Account): State {
    st.(info := st.info[j := i], books := st.books[j := b])
  }

  lemma KeptOk(s: Scheme, st: State, j: JobId, i: Info, b: Account)
    requires Ok(s, st) && j !in st.books && b.place.Gone? && JobOk(s, i, b, st.now)
    ensures Ok(s, Kept(st, j, i, b))
  {
    OrderedSame(s, st.info, st.info[j := i], st.queue);
  }

  /** What a quantum that ends at time leaves of a job's burst, and what it makes of its account. */
  function Used(i: Info, time: real): Info {
    i.(remain := i.remain - (time - i.lastStart))
  }

  ghost function Charged(i: Info, b: Account, time: real): Account {
    Account(if Used(i, time).remain > 0.0 then Queued else Gone(time), b.given + (time - i.lastStart), b.idle, time)
  }

  /** The running job e has had its quantum: it is back in the queue if it needs more time, else it has left. */
  ghost function Evicted(s: Scheme, st: State, e: JobId, time: real): State
    requires e in st.info && e in st.books && Members(st.queue) <= st.info.Keys
  {
    var i, b := Used(st.info[e], time), Charged(st.info[e], st.books[e], time);
    var info := st.info[e := i];
    State(if i.remain > 0.0 then Insert(s, info, st.queue, e) else st.queue, info, st.books[e := b], None, time)
  }

  lemma EvictedOk(s: Scheme, st: State, e: JobId, time: real)
    requires Ok(s, st) && Preemptive(s) && st.running == Some(e) && st.now <= time
    ensures Ok(s, Evicted(s, st, e, time))
  {
    LaterOk(s, st, time);
    var later := Later(st, time);
    var i, b := Used(st.info[e], time), Charged(st.info[e], st.books[e], time);
    assert JobOk(s, later.info[e], later.books[e], time);
    WithoutOk(s, later, e);
    var others := Without(later, e);
    assert others.info[e := i] == st.info[e := i] && others.books[e := b] == st.books[e := b];
    if i.remain > 0.0 {
      JoinedOk(s, others, e, i, b);
    } else {
      KeptOk(s, others, e, i, b);
    }
  }

  /** The account of a job that had its whole burst without being preempted. */
  ghost function Closed(i: Info, b: Account, time: real): Account {
    b.(place := Gone(time), given := time - i.lastStart)
  }

  ghost function Left(st: State, e: JobId, time: real): State
    requires e in st.info && e in st.books
  {
    st.(books := st.books[e := Closed(st.info[e], st.books[e], time)], running := None, now := time)
  }

  lemma LeftOk(s: Scheme, st: State, e: JobId, time: real)
    requires Ok(s, st) && !Preemptive(s) && st.running == Some(e) && st.now <= time
    requires time - st.info[e].start >= st.info[e].burst
    ensures Ok(s, Left(st, e, time))
  {
    LaterOk(s, st, time);
    var later := Later(st, time);
    var i, b := st.info[e], Closed(st.info[e], st.books[e], time);
    assert JobOk(s, i, later.books[e], time);
    WithoutOk(s, later, e);
    var others := Without(later, e);
    assert others.info[e := i] == st.info && others.books[e := b] == st.books[e := b];
    KeptOk(s, others, e, i, b);
  }

  /** A job that runs from some time on. */
  function Started(i: Info, time: real): Info {
    i.(start := if i.start == -1.0 then time else i.start, lastStart := time)
  }

  ghost function Opened(b: Account, time: real): Account {
    b.(place := Running, idle := b.idle + (time - b.since))
  }

  /** The first job of the queue, if there is one, runs. */
  ghost function Polled(st: State): State
    requires Members(st.queue) <= st.info.Keys && Members(st.queue) <= st.books.Keys
  {
    if st.queue == [] then st
    else
      var j := st.queue[0];
      assert j in Members(st.queue);
      State(st.queue[1..], st.info[j := Started(st.info[j], st.now)], st.books[j := Opened(st.books[j], st.now)],
            Some(j), st.now)
  }

  /** No job of the queue goes before the one that runs; without such a job the queue is empty. */
  ghost predicate BestRuns(s: Scheme, st: State) {
    if st.running.None? then st.queue == [] else First(s, st.info, st.running.value, Members(st.queue))
  }

  lemma PolledOk(s: Scheme, st: State)
    requires Ok(s, st) && st.running.None?
    ensures Ok(s, Polled(st))
  {
    var q, info := st.queue, st.info;
    if q != [] {
      assert q[0] in Members(q);
      assert JobOk(s, info[q[0]], st.books[q[0]], st.now);
      assert First(s, info, q[0], Members(q[1..]));
      OrderedSame(s, info, info[q[0] := Started(info[q[0]], st.now)], q[1..]);
    }
  }

  lemma PolledBest(s: Scheme, st: State)
    requires Ok(s, st) && st.running.None?
    ensures BestRuns(s, Polled(st))
  {
    var q, info := st.queue, st.info;
    if q != [] {
      var on := info[q[0] := Started(info[q[0]], st.now)];
      assert First(s, info, q[0], Members(q[1..]));
      forall k | k in Members(q[1..]) && s != RR ensures NotAfter(s, on[q[0]], on[k]) {
        assert NotAfter(s, info[q[0]], info[k]);
      }
    }
  }

  // -- The calls

  /** Without preemption a job runs on until it had its burst. */
  predicate Stays(s: Scheme, i: Info, time: real) {
    !Preemptive(s) && time - i.start < i.burst
  }

  /** The state in which scheduler_quantum_expired polls, or leaves alone when the running job stays. */
  ghost function Interrupted(s: Scheme, st: State, time: real): (r: State)
    requires Ok(s, st) && st.now <= time
    ensures Ok(s, r) && r.now == time
  {
    LaterOk(s, st, time);
    if st.running.None? then Later(st, time)
    else
      var e := st.running.value;
      if Preemptive(s) then
        EvictedOk(s, st, e, time);
        Evicted(s, st, e, time)
      else if Stays(s, st.info[e], time) then Later(st, time)
      else
        LeftOk(s, st, e, time);
        Left(st, e, time)
  }

  ghost function Quantum(s: Scheme, st: State, time: real): (r: State)
    requires Ok(s, st) && st.now <= time
    ensures Ok(s, r) && r.now == time
    ensures Interrupted(s, st, time).running.None? ==> BestRuns(s, r)
  {
    var mid := Interrupted(s, st, time);
    if mid.running.Some? then mid
    else
      PolledOk(s, mid);
      PolledBest(s, mid);
      Polled(mid)
  }

  ghost function Arrived(s: Scheme, st: State, j: JobId, time: real, runningTime: real, priority: int): (r: State)
    requires Ok(s, st) && st.now <= time && j !in st.info
    ensures Ok(s, r) && r.now == time
  {
    LaterOk(s, st, time);
    var i, b := Info(time, runningTime, runningTime, -1.0, -1.0, priority), Account(Queued, 0.0, 0.0, time);
    JoinedOk(s, Later(st, time), j, i, b);
    Joined(s, Later(st, time), j, i, b)
  }

  /** A job is reported when it runs, or at the time at which it left. */
  ghost predicate CanFinish(st: State, j: JobId, time: real) {
    j in st.books && (st.running == Some(j) || st.books[j].place == Gone(time))
  }

  ghost function Finished(s: Scheme, st: State, j: JobId, time: real): (r: State)
    requires Ok(s, st) && st.now <= time && CanFinish(st, j, time)
    ensures Ok(s, r) && r.now == time
  {
    LaterOk(s, st, time);
    assert Placed(j, st.books[j], Members(st.queue), st.running);
    WithoutOk(s, Later(st, time), j);
    Without(Later(st, time), j)
  }

  // -- Runs

  datatype Call =
    | New(job: JobId, time: real, runningTime: real, priority: int)
    | Expire(time: real)
    | Finish(job: JobId, time: real)

  /** The driver's side: time does not go back, jobs are new once, and only finished jobs are reported. */
  ghost predicate Can(st: State, c: Call) {
    && st.now <= c.time
    && match c
       case New(j, _, _, _) => j !in st.info
       case Expire(_) => true
       case Finish(j, time) => CanFinish(st, j, time)
  }

  ghost function Apply(s: Scheme, st: State, c: Call): (r: State)
    requires Ok(s, st) && Can(st, c)
    ensures Ok(s, r)
  {
    match c
    case New(j, time, runningTime, priority) => Arrived(s, st, j, time, runningTime, priority)
    case Expire(time) => Quantum(s, st, time)
    case Finish(j, time) => Finished(s, st, j, time)
  }

  ghost predicate CanRun(s: Scheme, st: State, calls: seq<Call>)
    requires Ok(s, st)
    decreases |calls|
  {
    calls == [] || (Can(st, calls[0]) && CanRun(s, Apply(s, st, calls[0]), calls[1..]))
  }

  /** What the quantum number k of a run, counted from 0, gives to the driver. */
  ghost function Given(s: Scheme, st: State, calls: seq<Call>, k: nat): Option<JobId>
    requires Ok(s, st) && CanRun(s, st, calls)
    decreases |calls|
  {
    if calls == [] then None
    else
      var r := Apply(s, st, calls[0]);
      if !calls[0].Expire? then Given(s, r, calls[1..], k)
      else if k == 0 then r.running
      else Given(s, r, calls[1..], k - 1)
  }

  function Quanta(calls: seq<Call>): nat {
    if calls == [] then 0 else (if calls[0].Expire? then 1 else 0) + Quanta(calls[1..])
  }

  lemma RoundRobinInterrupted(st: State, time: real)
    requires Ok(RR, st) && st.now <= time
    ensures Interrupted(RR, st, time).running.None? && st.queue <= Interrupted(RR, st, time).queue
  {
    if st.running.Some? {
      var e := st.running.value;
      InsertLast(st.info[e := Used(st.info[e], time)], st.queue, e);
    }
  }

  lemma RoundRobinArrived(st: State, j: JobId, time: real, runningTime: real, priority: int)
    requires Ok(RR, st) && st.now <= time && j !in st.info
    ensures Arrived(RR, st, j, time, runningTime, priority).queue == st.queue + [j]
  {
    InsertLast(st.info[j := Info(time, runningTime, runningTime, -1.0, -1.0, priority)], st.queue, j);
  }

  /** Under round robin a call puts jobs only at the end of the queue, and a quantum serves its head. */
  lemma RoundRobinQueue(st: State, c: Call)
    requires Ok(RR, st) && Can(st, c) && st.queue != []
    ensures var r := Apply(RR, st, c);
            if c.Expire? then r.running == Some(st.queue[0]) && st.queue[1..] <= r.queue else st.queue <= r.queue
  {
    match c
    case New(j, time, runningTime, priority) => RoundRobinArrived(st, j, time, runningTime, priority);
    case Expire(time) => RoundRobinInterrupted(st, time);
    case Finish(_, _) =>
  }

  /** In every run under round robin, a job with k ahead of it is what quantum k + 1 gives, whatever else is called. */
  lemma {:induction false} TurnComes(st: State, calls: seq<Call>, k: nat)
    requires Ok(RR, st) && CanRun(RR, st, calls) && k < |st.queue| && k < Quanta(calls)
    ensures Given(RR, st, calls, k) == Some(st.queue[k])
    decreases |calls|
  {
    var r := Apply(RR, st, calls[0]);
    RoundRobinQueue(st, calls[0]);
    if !calls[0].Expire? {
      Further(st.queue, r.queue, k);
      TurnComes(r, calls[1..], k);
    } else if k > 0 {
      Further(st.queue[1..], r.queue, k - 1);
      TurnComes(r, calls[1..], k - 1);
    }
  }

  lemma Further(q: seq<JobId>, r: seq<JobId>, k: nat)
    requires q <= r && k < |q|
    ensures k < |r| && r[k] == q[k]
  {
  }

  /** In every run, under every scheme, no job is lost or doubled, and each one's time since arrival is the time it was
      queued and the time it was given; with preemption what remains and what was given make up its burst. */
  lemma {:induction false} RunAccounts(s: Scheme, st: State, calls: seq<Call>, j: JobId)
    requires Ok(s, st) && CanRun(s, st, calls)
    ensures var r := Run(s, st, calls);
            j in r.info ==>
              && j in r.books
              && (Preemptive(s) ==> r.info[j].remain + r.books[j].given == r.info[j].burst)
              && r.info[j].arrival + r.books[j].idle + r.books[j].given ==
                   match r.books[j].place
                   case Queued => r.books[j].since
                   case Running => r.info[j].lastStart
                   case Gone(at) => at
    decreases |calls|
  {
    if calls == [] {
      if j in st.info { assert JobOk(s, st.info[j], st.books[j], st.now); }
    } else {
      RunAccounts(s, Apply(s, st, calls[0]), calls[1..], j);
    }
  }

  ghost function Run(s: Scheme, st: State, calls: seq<Call>): State
    requires Ok(s, st) && CanRun(s, st, calls)
    decreases |calls|
  {
    if calls == [] then st else Run(s, Apply(s, st, calls[0]), calls[1..])
  }

  /** A quantum changes the metadata of no job but the one that ran and the one that runs. */
  lemma QuantumKeeps(s: Scheme, st: State, time: real, j: JobId)
    requires Ok(s, st) && st.now <= time && j in st.info
    ensures var r := Quantum(s, st, time);
            j in r.info && (Some(j) != st.running && Some(j) != r.running ==> r.info[j] == st.info[j])
  {
    InterruptedKeeps(s, st, time, j);
    PolledKeeps(s, Interrupted(s, st, time), j);
  }

  // -- What the calls mean in terms of the metadata alone

  /** The job that runs is a least one by what its scheme goes by, and by arrival among equals. */
  lemma LeastRuns(s: Scheme, st: State, k: JobId)
    requires Ok(s, st) && BestRuns(s, st) && k in Members(st.queue)
    ensures st.running.Some? && st.running.value in st.info && k in st.info && k != st.running.value
    ensures var a, b := st.info[st.running.value], st.info[k];
            match s
            case FCFS => a.arrival <= b.arrival
            case PRI | PPRI => a.priority < b.priority || (a.priority == b.priority && a.arrival <= b.arrival)
            case PSRTF => a.remain < b.remain || (a.remain == b.remain && a.arrival <= b.arrival)
            case SJF => a.burst < b.burst || (a.burst == b.burst && a.arrival <= b.arrival)
            case RR => true
  {
  }

  /** Without preemption the running job stays until it had its burst, and then leaves. */
  lemma RunsToItsBurst(s: Scheme, st: State, time: real)
    requires Ok(s, st) && st.now <= time && s in {FCFS, PRI, SJF} && st.running.Some?
    ensures var e, r := st.running.value, Quantum(s, st, time);
            && e in st.info && e in r.info && e in r.books && r.info[e] == st.info[e]
            && if time - st.info[e].start < st.info[e].burst then r == st.(now := time)
               else r.running != Some(e) && e !in Members(r.queue) && r.books[e].place == Gone(time)
  {
    var e := st.running.value;
    InterruptedKeeps(s, st, time, e);
    var mid := Interrupted(s, st, time);
    if mid.running.None? {
      assert Placed(e, mid.books[e], Members(mid.queue), None);
      PolledLeaves(s, mid, e);
    }
  }

  /** With preemption the time since it was last started is taken off what remains, and the job is back in the queue,
      or runs again at once, exactly when it needs more. */
  lemma RunsForAQuantum(s: Scheme, st: State, time: real)
    requires Ok(s, st) && st.now <= time && s in {PPRI, PSRTF, RR} && st.running.Some?
    ensures var e, r := st.running.value, Quantum(s, st, time);
            && e in st.info && e in r.info && e in r.books
            && r.info[e].remain == st.info[e].remain - (time - st.info[e].lastStart)
            && (r.info[e].remain > 0.0 <==> e in Members(r.queue) || r.running == Some(e))
            && (r.info[e].remain <= 0.0 ==> r.books[e].place == Gone(time))
  {
    var e := st.running.value;
    var mid := Interrupted(s, st, time);
    assert Placed(e, mid.books[e], Members(mid.queue), None);
    PolledLeaves(s, mid, e);
  }

  /** A poll takes nobody out of the queue but the job that runs, and changes only its times. */
  lemma PolledLeaves(s: Scheme, st: State, e: JobId)
    requires Ok(s, st) && st.running.None? && e in st.info
    ensures var r := Polled(st);
            && e in r.info && e in r.books && r.info[e].remain == st.info[e].remain
            && (e in Members(st.queue) <==> e in Members(r.queue) || r.running == Some(e))
            && (e !in Members(st.queue) ==> r.info[e] == st.info[e] && r.books[e] == st.books[e])
  {
  }

  /** The job that a quantum gives has the time of its first run as its start, and a poll restarts its quantum. */
  lemma GivenIsStarted(s: Scheme, st: State, time: real)
    requires Ok(s, st) && st.now <= time && Quantum(s, st, time).running.Some?
    ensures var r := Quantum(s, st, time);
            var j := r.running.value;
            && j in st.info && j in r.info
            && r.info[j].start == (if st.info[j].start == -1.0 then time else st.info[j].start)
            && (r.running != st.running || Preemptive(s) ==> r.info[j].lastStart == time)
  {
    var r := Quantum(s, st, time);
    var j := r.running.value;
    var mid := Interrupted(s, st, time);
    InterruptedStart(s, st, time, j);
    if mid.running.Some? {
      assert JobOk(s, st.info[j], st.books[j], st.now) && Placed(j, st.books[j], Members(st.queue), st.running);
    }
  }

  lemma InterruptedStart(s: Scheme, st: State, time: real, j: JobId)
    requires Ok(s, st) && st.now <= time
    ensures var r := Interrupted(s, st, time);
            && r.info.Keys == st.info.Keys && (j in st.info ==> r.info[j].start == st.info[j].start)
            && (r.running.Some? ==> !Preemptive(s) && r.running == st.running)
  {
  }

  /** Nothing else changes the start of a job while it has metadata. */
  lemma StartStays(s: Scheme, st: State, c: Call, j: JobId)
    requires Ok(s, st) && Can(st, c) && j in st.info && j in Apply(s, st, c).info
    requires st.info[j].start != -1.0 || !c.Expire? || Apply(s, st, c).running != Some(j)
    ensures Apply(s, st, c).info[j].start == st.info[j].start
  {
    if c.Expire? {
      InterruptedStart(s, st, c.time, j);
    }
  }

  /** Job j has metadata all through a run. */
  ghost predicate Known(s: Scheme, st: State, calls: seq<Call>, j: JobId)
    requires Ok(s, st) && CanRun(s, st, calls)
    decreases |calls|
  {
    j in st.info && (calls == [] || Known(s, Apply(s, st, calls[0]), calls[1..], j))
  }

  /** The time of the first quantum that gives job j, or -1. */
  ghost function FirstGiven(s: Scheme, st: State, calls: seq<Call>, j: JobId): real
    requires Ok(s, st) && CanRun(s, st, calls)
    decreases |calls|
  {
    if calls == [] then -1.0
    else
      var r := Apply(s, st, calls[0]);
      if calls[0].Expire? && r.running == Some(j) then calls[0].time else FirstGiven(s, r, calls[1..], j)
  }

  /** In every run the start of a job that had not run before is the time at which it was first given to the driver. */
  lemma {:induction false} StartIsFirstGiven(s: Scheme, st: State, calls: seq<Call>, j: JobId)
    requires Ok(s, st) && CanRun(s, st, calls) && Known(s, st, calls, j)
    ensures j in Run(s, st, calls).info
    ensures Run(s, st, calls).info[j].start ==
              if st.info[j].start == -1.0 then FirstGiven(s, st, calls, j) else st.info[j].start
    decreases |calls|
  {
    if calls != [] {
      var c := calls[0];
      var r := Apply(s, st, c);
      StartIsFirstGiven(s, r, calls[1..], j);
      assert j in r.info;
      if c.Expire? && r.running == Some(j) {
        GivenIsStarted(s, st, c.time);
      } else {
        StartStays(s, st, c, j);
      }
    }
  }

  lemma InterruptedKeeps(s: Scheme, st: State, time: real, j: JobId)
    requires Ok(s, st) && st.now <= time && j in st.info
    ensures var r := Interrupted(s, st, time);
            && j in r.info && (Some(j) != st.running ==> r.info[j] == st.info[j])
            && (r.running.Some? ==> r.running == st.running)
  {
  }

  lemma PolledKeeps(s: Scheme, st: State, j: JobId)
    requires Ok(s, st) && j in st.info
    ensures j in Polled(st).info && (Some(j) != Polled(st).running ==> Polled(st).info[j] == st.info[j])
  {
  }

  class Scheduler {
    const scheme: Scheme
    var queue: seq<JobId>
    var info: map<JobId, Info>
    var waiting: real
    var turnaround: real
    var response: real
    var numJobs: nat
    ghost var books: map<JobId, Account>
    ghost var running: Option<JobId>
    ghost var now: real

    constructor (scheme: Scheme)
      ensures Valid() && this.scheme == scheme && S() == Idle
      ensures waiting == turnaround == response == 0.0 && numJobs == 0
    {
      this.scheme := scheme;
      queue, info, waiting, turnaround, response, numJobs := [], map[], 0.0, 0.0, 0.0, 0;
      running, now, books := None, 0.0, map[];
    }

    ghost function S(): State
      reads this
    {
      State(queue, info, books, running, now)
    }

    ghost predicate Valid()
      reads this
    {
      Ok(scheme, S())
    }

    method NewJob(j: JobId, time: real, runningTime: real, priority: int)
      requires Valid() && j !in info && now <= time
      modifies this`queue, this`info, this`numJobs, this`books, this`now
      ensures Valid() && S() == Arrived(scheme, old(S()), j, time, runningTime, priority)
      ensures info == old(info)[j := Info(time, runningTime, runningTime, -1.0, -1.0, priority)]
      ensures var c := New(j, time, runningTime, priority);
              Can(old(S()), c) && S() == Apply(scheme, old(S()), c)
      ensures numJobs == old(numJobs) + 1
    {
      ghost var r := Arrived(scheme, S(), j, time, runningTime, priority);
      books, now := books[j := Account(Queued, 0.0, 0.0, time)], time;
      info := info[j := Info(time, runningTime, runningTime, -1.0, -1.0, priority)];
      queue := Insert(scheme, info, queue, j);
      numJobs := numJobs + 1;
      assert S() == r;
    }

    /** The evicted job has had its quantum. */
    method Evict(e: JobId, time: real)
      requires Valid() && Preemptive(scheme) && running == Some(e) && now <= time
      modifies this`queue, this`info, this`books, this`running, this`now
      ensures S() == Evicted(scheme, old(S()), e, time)
    {
      var i := info[e];
      books := books[e := Charged(i, books[e], time)];
      info := info[e := i.(remain := i.remain - (time - i.lastStart))];
      if info[e].remain > 0.0 {
        queue := Insert(scheme, info, queue, e);
      }
      running, now := None, time;
    }

    /** priqueue_poll and the bookkeeping of the job it gives. */
    method Poll(time: real) returns (next: Option<JobId>)
      requires Valid() && now == time && running.None?
      modifies this`queue, this`info, this`books, this`running
      ensures S() == Polled(old(S())) && next == running
    {
      if queue == [] {
        return None;
      }
      var j := queue[0];
      assert j in Members(queue);
      var i := info[j];
      books := books[j := Opened(books[j], time)];
      info := info[j := i.(start := if i.start == -1.0 then time else i.start, lastStart := time)];
      queue, running := queue[1..], Some(j);
      next := Some(j);
    }

    /** The first half of scheduler_quantum_expired. */
    method Interrupt(evicted: Option<JobId>, time: real) returns (stays: bool)
      requires Valid() && evicted == running && now <= time
      modifies this`queue, this`info, this`books, this`running, this`now
      ensures Valid() && S() == Interrupted(scheme, old(S()), time) && (stays <==> running.Some?)
    {
      ghost var r := Interrupted(scheme, S(), time);
      stays := false;
      if evicted.None? {
        now := time;
      } else if Preemptive(scheme) {
        Evict(evicted.value, time);
      } else {
        var i := info[evicted.value];
        now := time;
        if time - i.start < i.burst {
          stays := true;
        } else {
          books, running := books[evicted.value := Closed(i, books[evicted.value], time)], None;
        }
      }
      assert S() == r;
    }

    /** scheduler_quantum_expired, given the job that runs, or none when there is none or it has finished. */
    method QuantumExpired(evicted: Option<JobId>, time: real) returns (next: Option<JobId>)
      requires Valid() && evicted == running && now <= time
      modifies this`queue, this`info, this`books, this`running, this`now
      ensures Valid() && S() == Quantum(scheme, old(S()), time) && next == running
      ensures Can(old(S()), Expire(time)) && S() == Apply(scheme, old(S()), Expire(time))
      ensures Interrupted(scheme, old(S()), time).running.None? ==> BestRuns(scheme, S())
    {
      ghost var r := Quantum(scheme, S(), time);
      var stays := Interrupt(evicted, time);
      if stays {
        return evicted;
      }
      next := Poll(time);
      assert S() == r;
    }

    /** scheduler_job_finished, for the running job or for one that left at this time. The statistics grow by the times
        the job really had: waiting by its time in the queue, and by what it was given past its burst. */
    method JobFinished(j: JobId, time: real)
      requires Valid() && now <= time && CanFinish(S(), j, time)
      modifies this`info, this`books, this`running, this`now, this`waiting, this`turnaround, this`response
      ensures Valid() && S() == Finished(scheme, old(S()), j, time)
      ensures Can(old(S()), Finish(j, time)) && S() == Apply(scheme, old(S()), Finish(j, time))
      ensures j in old(info) && j in old(books)
      ensures var i, b := old(info)[j], old(books)[j];
              var given := if b.place == Running then b.given + (time - i.lastStart) else b.given;
              && waiting == old(waiting) + b.idle + (given - i.burst)
              && turnaround == old(turnaround) + b.idle + given
              && response == old(response) + (i.start - i.arrival)
    {
      ghost var r := Finished(scheme, S(), j, time);
      var i := info[j];
      assert JobOk(scheme, i, books[j], now) && Placed(j, books[j], Members(queue), running);
      waiting := waiting + (time - i.arrival) - i.burst;
      turnaround := turnaround + time - i.arrival;
      response := response + i.start - i.arrival;
      info, books, running, now := info - {j}, books - {j}, if running == Some(j) then None else running, time;
      assert S() == r;
    }
  }
}
