/** What any run of calls on the unit means to its users: each process has one flat memory of its own, and every
    byte it reads is the one it last wrote, whatever faults, evictions, context switches and other processes do. */
module MmuRuns {
  import opened MmuState
  import opened Mmu

  /** One byte of the flat memory of a process. */
  ghost function FlatByte(s: State, pid: Pid, va: nat): bv8 {
    var bytes := Flat(s, pid, DirIndex(va), TableIndex(va));
    if Offset(va) < |bytes| then bytes[Offset(va)] else 0
  }

  lemma SamePageOffsets(va: nat, x: nat)
    requires va < 0x1_0000_0000 && x < 0x1_0000_0000
    ensures DirIndex(x) == DirIndex(va) && TableIndex(x) == TableIndex(va) <==> x / PAGE == va / PAGE
    ensures x / PAGE == va / PAGE ==> Offset(x) - Offset(va) == x - va
  {
    IndexesOk(va);
    IndexesOk(x);
  }

  /** A write changes the bytes it is given, of the process it is made for, and no others. */
  lemma WriteIsPointwise(s: State, r: State, pid: Pid, va: nat, data: seq<bv8>, p: Pid, x: nat)
    requires Written(s, r, pid, va, data) && va < 0x1_0000_0000 && x < 0x1_0000_0000
    ensures FlatByte(r, p, x) == if p == pid && va <= x < va + |data| then data[x - va] else FlatByte(s, p, x)
  {
    SamePageOffsets(va, x);
    if va <= x < va + |data| {
      WithinPage(va, |data|, x);
    }
    var i, j := DirIndex(va), TableIndex(va);
    var bytes := Flat(s, pid, i, j);
    assert |Stored(bytes, Offset(va), data)| == PAGE;
    assert Offset(x) < PAGE;
  }

  lemma WithinPage(va: nat, n: nat, x: nat)
    requires Offset(va) + n <= PAGE && va <= x < va + n
    ensures x / PAGE == va / PAGE
  {
    assert va == (va / PAGE) * PAGE + va % PAGE;
    assert x == (va / PAGE) * PAGE + (va % PAGE + x - va);
  }

  lemma FetchedByte(s: State, now: State, p: Pid, va: nat, n: nat, out: Outcome, k: nat)
    requires Fetched(s, now, p, va, n, true, out) && va < 0x1_0000_0000 && k < n
    ensures va + k < 0x1_0000_0000
    ensures out.Done? && |out.bytes| == n && out.bytes[k] == FlatByte(s, p, va + k)
  {
    WithinPage(va, n, va + k);
    SamePageBound(va, va + k);
    SamePageOffsets(va, va + k);
  }

  lemma SamePageBound(va: nat, x: nat)
    requires va < 0x1_0000_0000 && x / PAGE == va / PAGE
    ensures x < 0x1_0000_0000
  {
  }

  // -- The calls as relations between states of the unit

  datatype Call =
    | Read(pid: Pid, va: nat, n: nat)
    | Write(pid: Pid, va: nat, data: seq<bv8>)
    | Add(pid: Pid)
    | Remove(pid: Pid)

  /** The state of the unit with the segments of its processes. */
  datatype Unit = Unit(s: State, segs: map<Pid, seq<Segment>>)

  const Fresh := Unit(State(map[], 0, map[], map[], map[], map[]), map[])

  /** What the source asserts of a call, and what it takes for granted of the process it is made for. */
  predicate Callable(pids: set<Pid>, c: Call) {
    match c
    case Read(pid, va, n) => pid in pids && va < 0x1_0000_0000 && Offset(va) + n <= PAGE
    case Write(pid, va, data) => pid in pids && va < 0x1_0000_0000 && Offset(va) + |data| <= PAGE
    case Add(pid) => pid !in pids
    case Remove(_) => true
  }

  /** One call and what it answers. Faults, evictions and context switches happen inside. */
  ghost predicate Step(c: Call, out: Outcome, u: Unit, r: Unit) {
    && Callable(u.s.dirs.Keys, c)
    && match c
       case Read(pid, va, n) =>
         && pid in u.segs && r.segs == u.segs
         && (match Find(u.segs[pid], va)
             case NoSegment => out == SegmentationFault && SameMemory(u.s, r.s)
             case Found(g) => Fetched(u.s, r.s, pid, va, n, g.read, out))
       case Write(pid, va, data) =>
         && pid in u.segs && r.segs == u.segs
         && (if Writable(u.segs[pid], va) then out == Done([]) && Written(u.s, r.s, pid, va, data)
             else out == SegmentationFault && SameMemory(u.s, r.s))
       case Add(pid) =>
         out == Done([]) && r.segs == u.segs[pid := Segments()] && Added(u.s, r.s, pid)
       case Remove(pid) =>
         && out == Done([]) && r.segs == u.segs - {pid} && r.s.dirs == u.s.dirs - {pid}
         && (forall p, i, j :: p != pid ==> Flat(r.s, p, i, j) == Flat(u.s, p, i, j))
  }

  /** The unit makes a call: every call is such a step, and keeps the unit consistent, its TLB included. */
  method Perform(m: Mmu, c: Call) returns (out: Outcome)
    requires m.Valid()
    requires match c
             case Read(pid, va, n) => pid in m.dirs && va < 0x1_0000_0000 && va % 4096 + n <= 4096
             case Write(pid, va, data) => pid in m.dirs && va < 0x1_0000_0000 && va % 4096 + |data| <= 4096
             case Add(pid) => pid !in m.dirs
             case Remove(_) => true
    modifies m
    ensures m.Valid() && Step(c, out, Unit(old(m.S()), old(m.segs)), Unit(m.S(), m.segs))
  {
    match c
    case Read(pid, va, n) => out := m.Read(va, pid, n);
    case Write(pid, va, data) => out := m.Write(va, pid, data);
    case Add(pid) =>
      m.AddProcess(pid);
      out := Done([]);
    case Remove(pid) =>
      m.RemoveProcess(pid);
      out := Done([]);
  }

  // -- What a user sees: one flat memory a process

  function Registered(calls: seq<Call>): set<Pid> {
    if calls == [] then {}
    else
      var before, c := Registered(calls[..|calls| - 1]), calls[|calls| - 1];
      match c
      case Read(_, _, _) => before
      case Write(_, _, _) => before
      case Add(pid) => before + {pid}
      case Remove(pid) => before - {pid}
  }

  /** Call c is a permitted write of process p that covers address x. */
  predicate Writes(c: Call, p: Pid, x: nat) {
    c.Write? && c.pid == p && Writable(Segments(), c.va) && c.va <= x < c.va + |c.data|
  }

  /** The byte at address x of process p after some calls: the last one written there by a permitted write of p
      since p was last removed, or 0. */
  function ByteAfter(calls: seq<Call>, p: Pid, x: nat): bv8 {
    if calls == [] then 0
    else
      var before, c := calls[..|calls| - 1], calls[|calls| - 1];
      if Writes(c, p, x) then c.data[x - c.va]
      else if c == Remove(p) then 0
      else ByteAfter(before, p, x)
  }

  function BytesAfter(calls: seq<Call>, p: Pid, va: nat, n: nat): (r: seq<bv8>)
    ensures |r| == n
  {
    seq(n, k requires 0 <= k < n => ByteAfter(calls, p, va + k))
  }

  /** What a call answers after some calls. */
  function Answer(calls: seq<Call>, c: Call): Outcome {
    match c
    case Read(pid, va, n) =>
      if FindStandard(va).Found? then Done(BytesAfter(calls, pid, va, n)) else SegmentationFault
    case Write(_, va, _) => if Writable(Segments(), va) then Done([]) else SegmentationFault
    case Add(_) => Done([])
    case Remove(_) => Done([])
  }

  // -- Runs

  ghost predicate StepAt(units: seq<Unit>, calls: seq<Call>, outs: seq<Outcome>, k: nat)
    requires |units| == |calls| + 1 && |outs| == |calls| && k < |calls|
  {
    Step(calls[k], outs[k], units[k], units[k + 1])
  }

  ghost predicate IsRun(units: seq<Unit>, calls: seq<Call>, outs: seq<Outcome>) {
    && |units| == |calls| + 1 && |outs| == |calls| && units[0] == Fresh
    && forall k :: 0 <= k < |calls| ==> StepAt(units, calls, outs, k)
  }

  /** Every process has the standard segments. */
  ghost predicate Standard(u: Unit) {
    u.s.dirs.Keys == u.segs.Keys && forall pid :: pid in u.segs ==> u.segs[pid] == Segments()
  }

  /** The unit after some calls behaves as the flat memories do. */
  ghost predicate Refines(u: Unit, calls: seq<Call>) {
    && Standard(u) && u.s.dirs.Keys == Registered(calls)
    && (forall p, x :: 0 <= x < 0x1_0000_0000 ==> FlatByte(u.s, p, x) == ByteAfter(calls, p, x))
  }

  lemma FreshRefines()
    ensures Refines(Fresh, [])
  {
  }

  lemma GoneIsZero(s: State, p: Pid, x: nat)
    requires p !in s.dirs
    ensures FlatByte(s, p, x) == 0
  {
  }

  lemma SameBytes(s: State, r: State, p: Pid, x: nat)
    requires forall i, j :: Flat(r, p, i, j) == Flat(s, p, i, j)
    ensures FlatByte(r, p, x) == FlatByte(s, p, x)
  {
  }

  lemma ReadKeepsBytes(c: Call, out: Outcome, u: Unit, r: Unit, p: Pid, x: nat)
    requires Standard(u) && c.Read? && Step(c, out, u, r)
    ensures FlatByte(r.s, p, x) == FlatByte(u.s, p, x)
  {
    StandardSegments(c.va);
    SameBytes(u.s, r.s, p, x);
  }

  lemma WriteByte(c: Call, out: Outcome, u: Unit, r: Unit, p: Pid, x: nat)
    requires Standard(u) && c.Write? && Step(c, out, u, r) && x < 0x1_0000_0000
    ensures FlatByte(r.s, p, x) == if Writes(c, p, x) then c.data[x - c.va] else FlatByte(u.s, p, x)
  {
    if Writable(Segments(), c.va) {
      WriteIsPointwise(u.s, r.s, c.pid, c.va, c.data, p, x);
    } else {
      SameBytes(u.s, r.s, p, x);
    }
  }

  lemma AddByte(c: Call, out: Outcome, u: Unit, r: Unit, p: Pid, x: nat)
    requires c.Add? && Step(c, out, u, r)
    ensures FlatByte(r.s, p, x) == FlatByte(u.s, p, x)
  {
    if p == c.pid {
      GoneIsZero(u.s, p, x);
    } else {
      SameBytes(u.s, r.s, p, x);
    }
  }

  lemma RemoveByte(c: Call, out: Outcome, u: Unit, r: Unit, p: Pid, x: nat)
    requires c.Remove? && Step(c, out, u, r)
    ensures FlatByte(r.s, p, x) == if p == c.pid then 0 else FlatByte(u.s, p, x)
  {
    if p == c.pid {
      GoneIsZero(r.s, p, x);
    } else {
      SameBytes(u.s, r.s, p, x);
    }
  }

  /** What a step does to each byte. */
  lemma StepByte(c: Call, out: Outcome, u: Unit, r: Unit, p: Pid, x: nat)
    requires Standard(u) && Step(c, out, u, r) && x < 0x1_0000_0000
    ensures FlatByte(r.s, p, x) ==
              if Writes(c, p, x) then c.data[x - c.va]
              else if c == Remove(p) then 0
              else FlatByte(u.s, p, x)
  {
    match c
    case Read(_, _, _) => ReadKeepsBytes(c, out, u, r, p, x);
    case Write(_, _, _) => WriteByte(c, out, u, r, p, x);
    case Add(_) => AddByte(c, out, u, r, p, x);
    case Remove(_) => RemoveByte(c, out, u, r, p, x);
  }

  lemma ReadByte(calls: seq<Call>, c: Call, out: Outcome, u: Unit, r: Unit, k: nat)
    requires Refines(u, calls) && c.Read? && c.va < 0x1_0000_0000 && k < c.n
    requires Fetched(u.s, r.s, c.pid, c.va, c.n, true, out)
    ensures out.Done? && |out.bytes| == c.n && out.bytes[k] == ByteAfter(calls, c.pid, c.va + k)
  {
    FetchedByte(u.s, r.s, c.pid, c.va, c.n, out, k);
  }

  lemma FetchedLength(s: State, now: State, p: Pid, va: nat, n: nat, out: Outcome)
    requires Fetched(s, now, p, va, n, true, out)
    ensures out.Done? && |out.bytes| == n
  {
  }

  lemma ReadAnswer(calls: seq<Call>, c: Call, out: Outcome, u: Unit, r: Unit)
    requires Refines(u, calls) && c.Read? && c.va < 0x1_0000_0000 && Fetched(u.s, r.s, c.pid, c.va, c.n, true, out)
    ensures out == Done(BytesAfter(calls, c.pid, c.va, c.n))
  {
    FetchedLength(u.s, r.s, c.pid, c.va, c.n, out);
    forall k | 0 <= k < c.n ensures out.bytes[k] == BytesAfter(calls, c.pid, c.va, c.n)[k] {
      ReadByte(calls, c, out, u, r, k);
    }
  }

  lemma StepAnswer(calls: seq<Call>, c: Call, out: Outcome, u: Unit, r: Unit)
    requires Refines(u, calls) && Step(c, out, u, r)
    ensures out == Answer(calls, c)
  {
    if c.Read? {
      StandardSegments(c.va);
      if FindStandard(c.va).Found? {
        ReadAnswer(calls, c, out, u, r);
      }
    }
  }

  lemma StepStandard(c: Call, out: Outcome, u: Unit, r: Unit)
    requires Standard(u) && Step(c, out, u, r)
    ensures Standard(r)
    ensures r.s.dirs.Keys ==
              if c.Add? then u.s.dirs.Keys + {c.pid} else if c.Remove? then u.s.dirs.Keys - {c.pid} else u.s.dirs.Keys
  {
    if c.Read? { StandardSegments(c.va); }
  }

  lemma StepRefines(calls: seq<Call>, c: Call, out: Outcome, u: Unit, r: Unit)
    requires Refines(u, calls) && Step(c, out, u, r)
    ensures Refines(r, calls + [c])
  {
    assert (calls + [c])[..|calls|] == calls;
    StepStandard(c, out, u, r);
    forall p, x | 0 <= x < 0x1_0000_0000 ensures FlatByte(r.s, p, x) == ByteAfter(calls + [c], p, x) {
      StepByte(c, out, u, r, p, x);
    }
  }

  lemma {:induction false} RunRefines(units: seq<Unit>, calls: seq<Call>, outs: seq<Outcome>, k: nat)
    requires IsRun(units, calls, outs) && k <= |calls|
    ensures Refines(units[k], calls[..k])
  {
    if k == 0 {
      FreshRefines();
    } else {
      RunRefines(units, calls, outs, k - 1);
      assert StepAt(units, calls, outs, k - 1);
      assert calls[..k] == calls[..k - 1] + [calls[k - 1]];
      StepRefines(calls[..k - 1], calls[k - 1], outs[k - 1], units[k - 1], units[k]);
    }
  }

  predicate AnswerAt(calls: seq<Call>, outs: seq<Outcome>, k: nat)
    requires k < |calls| == |outs|
  {
    outs[k] == Answer(calls[..k], calls[k])
  }

  /** In every run from a fresh unit, each call answers as the flat memories do: a read in a segment returns the bytes
      last written at each address by its process, across faults, evictions, context switches and other processes. */
  lemma RunAnswers(units: seq<Unit>, calls: seq<Call>, outs: seq<Outcome>, k: nat)
    requires IsRun(units, calls, outs) && k < |calls|
    ensures AnswerAt(calls, outs, k)
  {
    RunRefines(units, calls, outs, k);
    assert StepAt(units, calls, outs, k);
    StepAnswer(calls[..k], calls[k], outs[k], units[k], units[k + 1]);
  }

  predicate Admissible(calls: seq<Call>) {
    forall k :: 0 <= k < |calls| ==> Callable(Registered(calls[..k]), calls[k])
  }

  /** A unit that is made and then gets any admissible calls. All its states are consistent, so each cached entry
      belongs to the current process and is the entry its walk reaches; and it answers as flat memories do. */
  method Drive(calls: seq<Call>) returns (outs: seq<Outcome>, ghost units: seq<Unit>)
    requires Admissible(calls)
    ensures IsRun(units, calls, outs) && forall k :: 0 <= k <= |calls| ==> Inv(units[k].s)
    ensures forall k :: 0 <= k < |calls| ==> AnswerAt(calls, outs, k)
  {
    var m := new Mmu();
    outs, units := [], [Fresh];
    for n := 0 to |calls|
      invariant fresh(m) && m.Valid() && |outs| == n && |units| == n + 1 && units[n] == Unit(m.S(), m.segs)
      invariant IsRun(units, calls[..n], outs) && forall k :: 0 <= k <= n ==> Inv(units[k].s)
    {
      RunRefines(units, calls[..n], outs, n);
      assert calls[..n][..n] == calls[..n];
      var out := Perform(m, calls[n]);
      ghost var u := Unit(m.S(), m.segs);
      RunNext(units, calls, outs, n, out, u);
      outs, units := outs + [out], units + [u];
    }
    assert calls[..|calls|] == calls;
    forall k | 0 <= k < |calls| ensures AnswerAt(calls, outs, k) {
      RunAnswers(units, calls, outs, k);
    }
  }

  lemma RunNext(units: seq<Unit>, calls: seq<Call>, outs: seq<Outcome>, n: nat, out: Outcome, u: Unit)
    requires n < |calls| && IsRun(units, calls[..n], outs) && Step(calls[n], out, units[n], u)
    ensures IsRun(units + [u], calls[..n + 1], outs + [out])
  {
    var more, longer, answers := units + [u], calls[..n + 1], outs + [out];
    forall k | 0 <= k < n + 1 ensures StepAt(more, longer, answers, k) {
      assert k < n ==> StepAt(units, calls[..n], outs, k);
    }
  }
}
