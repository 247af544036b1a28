/** The memory management unit: reads and writes through the TLB and the two-level walk, demand
    paging with a kernel that may evict pages at any request, and processes coming and going. */
module Mmu {
  import opened MmuState
  import Sets

  // -- Segments

  datatype Segment = Segment(start: nat, end: nat, read: bool, write: bool)

  datatype MaybeSegment = NoSegment | Found(segment: Segment)

  predicate InSegment(g: Segment, va: nat) {
    g.start <= va < g.end
  }

  function Find(gs: seq<Segment>, va: nat): MaybeSegment {
    if gs == [] then NoSegment else if InSegment(gs[0], va) then Found(gs[0]) else Find(gs[1..], va)
  }

  /** The segments of every process: stack, mmap, heap, bss, data, text and testing. */
  function Segments(): seq<Segment> {
    [Segment(0xBFFFE000, 0xC07FE000, true, true),
     Segment(0xC07FE000, 0xC07FE000, true, true),
     Segment(0x08072000, 0x08072000, true, true),
     Segment(0x0805A000, 0x08072000, true, true),
     Segment(0x08052000, 0x0805A000, true, true),
     Segment(0x08048000, 0x08052000, true, false),
     Segment(PAGE, 3 * PAGE, true, true)]
  }

  function FindStandard(va: nat): MaybeSegment {
    Find(Segments(), va)
  }

  /** The table in closed form: only text is not writable, and everything in it is readable. */
  lemma StandardSegments(va: nat)
    ensures FindStandard(va) ==
      if 0xBFFFE000 <= va < 0xC07FE000 then Found(Segment(0xBFFFE000, 0xC07FE000, true, true))
      else if 0x0805A000 <= va < 0x08072000 then Found(Segment(0x0805A000, 0x08072000, true, true))
      else if 0x08052000 <= va < 0x0805A000 then Found(Segment(0x08052000, 0x0805A000, true, true))
      else if 0x08048000 <= va < 0x08052000 then Found(Segment(0x08048000, 0x08052000, true, false))
      else if PAGE <= va < 3 * PAGE then Found(Segment(PAGE, 3 * PAGE, true, true))
      else NoSegment
    ensures FindStandard(va).Found? ==> FindStandard(va).segment.read
    ensures Aligned(Segments())
    ensures |Segments()| == 7 && forall k :: 0 <= k < 7 ==> Segments()[k].read && (Segments()[k].write <==> k != 5)
  {
    var g := Segments();
    assert g[1..][1..] == g[2..] && g[2..][1..] == g[3..] && g[3..][1..] == g[4..];
    assert g[4..][1..] == g[5..] && g[5..][1..] == g[6..] && g[6..][1..] == [];
    assert Find(g[6..], va) == if InSegment(g[6], va) then Found(g[6]) else NoSegment;
    assert Find(g[5..], va) == if InSegment(g[5], va) then Found(g[5]) else Find(g[6..], va);
    assert Find(g[4..], va) == if InSegment(g[4], va) then Found(g[4]) else Find(g[5..], va);
    assert Find(g[3..], va) == if InSegment(g[3], va) then Found(g[3]) else Find(g[4..], va);
    assert Find(g[2..], va) == Find(g[3..], va);
    assert Find(g[1..], va) == Find(g[2..], va);
  }

  /** Which addresses a new process may write, and which it may only read. */
  lemma PermittedAddresses(va: nat)
    ensures Writable(Segments(), va) <==>
              0xBFFFE000 <= va < 0xC07FE000 || 0x08052000 <= va < 0x08072000 || PAGE <= va < 3 * PAGE
    ensures (FindStandard(va).Found? && FindStandard(va).segment.read) <==>
              Writable(Segments(), va) || 0x08048000 <= va < 0x08052000
  {
    StandardSegments(va);
  }

  // -- Virtual addresses

  function DirIndex(va: nat): nat { va / 0x400000 }
  function TableIndex(va: nat): nat { (va / PAGE) % ENTRIES }
  function Offset(va: nat): nat { va % PAGE }

  lemma IndexesOk(va: nat)
    requires va < 0x1_0000_0000
    ensures DirIndex(va) == (va / PAGE) / ENTRIES && DirIndex(va) < ENTRIES && TableIndex(va) < ENTRIES
    ensures va == (DirIndex(va) * ENTRIES + TableIndex(va)) * PAGE + Offset(va)
  {
  }

  /** Segments begin and end with a page, so that a page lies in one segment as a whole. */
  predicate Aligned(gs: seq<Segment>) {
    forall k :: 0 <= k < |gs| ==> gs[k].start % PAGE == 0 && gs[k].end % PAGE == 0
  }

  lemma {:induction false} OneSegmentAPage(gs: seq<Segment>, va: nat, va': nat)
    requires Aligned(gs) && va / PAGE == va' / PAGE
    ensures Find(gs, va) == Find(gs, va')
  {
    if gs != [] {
      AlignedBounds(gs[0].start, gs[0].end, va, va');
      OneSegmentAPage(gs[1..], va, va');
    }
  }

  lemma AlignedBounds(start: nat, end: nat, va: nat, va': nat)
    requires start % PAGE == 0 && end % PAGE == 0 && va / PAGE == va' / PAGE
    ensures start <= va < end <==> start <= va' < end
  {
    assert start == (start / PAGE) * PAGE && end == (end / PAGE) * PAGE;
  }

  predicate Writable(gs: seq<Segment>, va: nat) {
    Find(gs, va).Found? && Find(gs, va).segment.write
  }

  function PageStart(i: nat, j: nat): nat { (i * ENTRIES + j) * PAGE }

  /** Writability is a matter of the page. */
  lemma WritablePage(gs: seq<Segment>, va: nat)
    requires va < 0x1_0000_0000 && Aligned(gs)
    ensures Writable(gs, va) <==> Writable(gs, PageStart(DirIndex(va), TableIndex(va)))
  {
    IndexesOk(va);
    OneSegmentAPage(gs, va, PageStart(DirIndex(va), TableIndex(va)));
  }

  /** Nothing is ever stored in a page that cannot be written. */
  ghost predicate UnwrittenIsZero(s: State, segs: map<Pid, seq<Segment>>) {
    forall pid, i, j :: pid in s.dirs && pid in segs && !Writable(segs[pid], PageStart(i, j)) ==> Flat(s, pid, i, j) == Zeros()
  }

  datatype Outcome = SegmentationFault | Done(bytes: seq<bv8>)

  /** Bytes with data in place of those from off on. */
  function Stored(bytes: seq<bv8>, off: nat, data: seq<bv8>): seq<bv8>
    requires off + |data| <= |bytes|
  {
    bytes[..off] + data + bytes[off + |data|..]
  }

  /** What a read of n bytes at va, or a denied access there, gives and does. */
  ghost predicate Fetched(was: State, now: State, pid: Pid, va: nat, n: nat, allowed: bool, out: Outcome) {
    var i, j := DirIndex(va), TableIndex(va);
    && Offset(va) + n <= PAGE == |Flat(was, pid, i, j)|
    && out == (if allowed then Done(Flat(was, pid, i, j)[Offset(va)..Offset(va) + n]) else SegmentationFault)
    && OnlyPage(was, now, pid, i, j, if allowed || HasPage(was, pid, i, j) then Flat(was, pid, i, j) else Zeros())
  }

  /** The flat memory after data has been written at va. */
  ghost predicate Written(was: State, now: State, pid: Pid, va: nat, data: seq<bv8>) {
    var i, j := DirIndex(va), TableIndex(va);
    && Offset(va) + |data| <= PAGE == |Flat(was, pid, i, j)|
    && OnlyPage(was, now, pid, i, j, Stored(Flat(was, pid, i, j), Offset(va), data))
  }

  /** One more process, whose memory is all zeros. */
  ghost predicate Added(s: State, r: State, pid: Pid) {
    && r.dirs.Keys == s.dirs.Keys + {pid}
    && forall p, i, j :: Flat(r, p, i, j) == if p == pid then Zeros() else Flat(s, p, i, j)
  }

  /** Page j of the first 4 MB has never been used. */
  ghost predicate BlankPage(s: State, pid: Pid, j: nat) {
    !HasPage(s, pid, 0, j) && Flat(s, pid, 0, j) == Zeros()
  }

  /** The entry is marked as a write leaves it. */
  predicate Touched(s: State, l: Loc) {
    TableEntry(s, l).present && TableEntry(s, l).accessed && TableEntry(s, l).dirty
  }

  class Mmu {
    var tlb: map<nat, Loc>
    var curr: Pid
    var dirs: map<Pid, Frame>
    var segs: map<Pid, seq<Segment>>
    var frames: map<Frame, Content>
    var swap: map<Loc, seq<bv8>>
    ghost var owner: map<Frame, Owner>

    constructor ()
      ensures Valid() && S() == State(map[], 0, map[], map[], map[], map[]) && segs == map[]
    {
      tlb, curr, dirs, segs, frames, swap, owner := map[], 0, map[], map[], map[], map[], map[];
    }

    ghost function S(): State
      reads this
    {
      State(tlb, curr, dirs, frames, swap, owner)
    }

    ghost predicate Valid()
      reads this
    {
      && Inv(S())
      && segs.Keys == dirs.Keys
      && (forall pid :: pid in segs ==> Aligned(segs[pid]))
      && UnwrittenIsZero(S(), segs)
    }

    // -- The kernel

    predicate Evictable(l: Loc)
      reads this
    {
      && l.frame in frames && frames[l.frame].Table? && l.index < |frames[l.frame].entries|
      && frames[l.frame].entries[l.index].present
    }

    /** Saves the page of an entry to its swap file and takes the frame away, in place. */
    method Evict(l: Loc)
      requires Inv(S()) && Evictable(l)
      modifies this`frames, this`swap, this`owner
      ensures Inv(S()) && SameMemory(old(S()), S()) && swap.Keys == old(swap).Keys + {l}
      ensures forall p, k :: DirEntry(S(), p, k) == DirEntry(old(S()), p, k)
      ensures forall m :: TableEntry(S(), m) ==
                if m == l then TableEntry(old(S()), l).(present := false) else TableEntry(old(S()), m)
    {
      ghost var s := S();
      assert Reached(s, l.frame);
      ghost var pid, i := s.owner[l.frame].pid, s.owner[l.frame].i;
      TableWalk(s, l, pid, i);
      EvictedOk(s, pid, i, l.index);
      var entries := frames[l.frame].entries;
      var f := entries[l.index].base;
      swap := swap[l := frames[f].bytes];
      frames := frames[l.frame := Table(entries[l.index := entries[l.index].(present := false)])] - {f};
      owner := owner - {f};
    }

    /** Evicts any pages it likes, and hands out a frame that is not in use. */
    method AskKernel() returns (f: Frame)
      requires Inv(S())
      modifies this`frames, this`swap, this`owner
      ensures Inv(S()) && SameMemory(old(S()), S()) && f !in frames
      ensures forall p, k :: DirEntry(S(), p, k) == DirEntry(old(S()), p, k)
      ensures forall m :: !TableEntry(old(S()), m).present ==> TableEntry(S(), m) == TableEntry(old(S()), m)
      ensures forall m :: TableEntry(old(S()), m).present && !TableEntry(S(), m).present ==> m in swap
    {
      var victims: seq<Loc> := *;
      for n := 0 to |victims|
        invariant Inv(S()) && SameMemory(old(S()), S())
        invariant forall p, k :: DirEntry(S(), p, k) == DirEntry(old(S()), p, k)
        invariant forall m :: !TableEntry(old(S()), m).present ==> TableEntry(S(), m) == TableEntry(old(S()), m)
        invariant forall m :: TableEntry(old(S()), m).present && !TableEntry(S(), m).present ==> m in swap
      {
        if Evictable(victims[n]) {
          Evict(victims[n]);
        }
      }
      Sets.Unused(frames.Keys);
      f :| f !in frames.Keys;
    }

    // -- Reading and writing

    /** The entry for a virtual address: from the TLB, or by the walk, which makes a missing page table
        and enters what it finds in the TLB. The TLB may drop entries to make room. */
    method Translate(va: nat, pid: Pid) returns (l: Loc)
      requires Inv(S()) && pid in dirs && pid == curr && va < 0x1_0000_0000
      modifies this`tlb, this`frames, this`swap, this`owner
      ensures Inv(S()) && SameMemory(old(S()), S())
      ensures HasTable(S(), pid, DirIndex(va)) && l == Walk(S(), pid, DirIndex(va), TableIndex(va))
      ensures HasPage(S(), pid, DirIndex(va), TableIndex(va)) <==> HasPage(old(S()), pid, DirIndex(va), TableIndex(va))
    {
      IndexesOk(va);
      var vpn := va / PAGE;
      if vpn in tlb {
        assert TlbOk(S(), vpn);
        return tlb[vpn];
      }
      assert DirOk(S(), pid);
      var i := DirIndex(va);
      if !frames[dirs[pid]].entries[i].present {
        AddTable(pid, i);
      }
      assert DirOk(S(), pid);
      l := Loc(frames[dirs[pid]].entries[i].base, TableIndex(va));
      Remember(vpn, l);
    }

    /** A context switch flushes the TLB. */
    method SwitchTo(pid: Pid)
      requires Inv(S())
      modifies this`tlb, this`curr
      ensures Inv(S()) && SamePages(old(S()), S()) && curr == pid
    {
      if pid != curr {
        tlb := map[];
        curr := pid;
      }
      SameMemoryAs(old(S()), S());
    }

    method Remember(vpn: nat, l: Loc)
      requires Inv(S()) && curr in dirs && HasTable(S(), curr, vpn / ENTRIES)
      requires l == Walk(S(), curr, vpn / ENTRIES, vpn % ENTRIES)
      modifies this`tlb
      ensures Inv(S()) && SameMemory(old(S()), S())
      ensures forall p, i, j :: HasPage(S(), p, i, j) <==> HasPage(old(S()), p, i, j)
    {
      var dropped: set<nat> := *;
      tlb := (tlb - dropped)[vpn := l];
      RememberOk(old(S()), S(), vpn);
    }

    method AddTable(pid: Pid, i: nat)
      requires Inv(S()) && pid in dirs && i < ENTRIES && !HasTable(S(), pid, i)
      modifies this`frames, this`swap, this`owner
      ensures Inv(S()) && SameMemory(old(S()), S()) && HasTable(S(), pid, i)
      ensures forall j :: !HasPage(S(), pid, i, j)
    {
      var f := AskKernel();
      ghost var s := S();
      WithTableOk(s, pid, i, f);
      var d := dirs[pid];
      frames := frames[d := Dir(frames[d].entries[i := Entry(true, f, true, true, false, false)])][f := Table(BlankEntries())];
      owner := owner[f := TableOf(pid, i)];
      assert S() == WithTable(s, pid, i, f);
    }

    /** A cleared frame for an entry that has none. */
    method MapPage(l: Loc, readWrite: bool, ghost pid: Pid, ghost i: nat)
      requires Inv(S()) && pid in dirs && i < ENTRIES && l.index < ENTRIES
      requires HasTable(S(), pid, i) && l == Walk(S(), pid, i, l.index) && !HasPage(S(), pid, i, l.index)
      modifies this`frames, this`swap, this`owner
      ensures Inv(S()) && HasPage(S(), pid, i, l.index) && l == Walk(S(), pid, i, l.index)
      ensures OnlyPage(old(S()), S(), pid, i, l.index, Zeros())
      ensures TableEntry(S(), l).user && TableEntry(S(), l).readWrite == readWrite
      ensures forall p, k, m :: HasPage(S(), p, k, m) ==> HasPage(old(S()), p, k, m) || (p == pid && k == i && m == l.index)
      ensures l in swap ==> swap[l] == Flat(old(S()), pid, i, l.index)
      ensures l !in swap ==> Flat(old(S()), pid, i, l.index) == Zeros()
    {
      var f := AskKernel();
      ghost var s := S();
      assert TableOk(s, pid, i);
      var entries := frames[l.frame].entries;
      var e := entries[l.index].(present := true, base := f, user := true, readWrite := readWrite);
      WithPageOk(s, pid, i, l.index, f, e);
      WithPageEntries(s, l, f, e, PageOf(pid, i, l.index));
      frames := frames[l.frame := Table(entries[l.index := e])][f := Page(Zeros())];
      owner := owner[f := PageOf(pid, i, l.index)];
      assert S() == WithPage(s, l, f, e, PageOf(pid, i, l.index));
    }

    /** Reads the page of an entry from its swap file, if there is one. */
    method ReadPageFromDisk(l: Loc, ghost pid: Pid, ghost i: nat)
      requires Inv(S()) && pid in dirs && i < ENTRIES && l.index < ENTRIES
      requires HasPage(S(), pid, i, l.index) && l == Walk(S(), pid, i, l.index)
      modifies this`frames
      ensures Inv(S()) && HasPage(S(), pid, i, l.index) && l == Walk(S(), pid, i, l.index)
      ensures OnlyPage(old(S()), S(), pid, i, l.index, if l in swap then swap[l] else Flat(old(S()), pid, i, l.index))
      ensures TableEntry(S(), l) == TableEntry(old(S()), l)
    {
      ghost var s := S();
      if l in swap {
        assert SwapOk(s, l) && TableOk(s, pid, i);
        WithBytesOk(s, pid, i, l.index, swap[l]);
        frames := frames[frames[l.frame].entries[l.index].base := Page(swap[l])];
        assert S() == WithBytes(s, TableEntry(s, l).base, swap[l]);
      }
    }

    /** Brings in a page. When the access is not allowed the page is marked present all the same, but its
        contents are not loaded. */
    method PageFault(l: Loc, allowed: bool, ghost pid: Pid, ghost i: nat)
      requires Inv(S()) && pid in dirs && i < ENTRIES && l.index < ENTRIES
      requires HasTable(S(), pid, i) && l == Walk(S(), pid, i, l.index) && !HasPage(S(), pid, i, l.index)
      modifies this`frames, this`swap, this`owner
      ensures Inv(S()) && HasPage(S(), pid, i, l.index) && l == Walk(S(), pid, i, l.index)
      ensures OnlyPage(old(S()), S(), pid, i, l.index, if allowed then Flat(old(S()), pid, i, l.index) else Zeros())
      ensures TableEntry(S(), l).user && TableEntry(S(), l).readWrite == allowed
    {
      MapPage(l, allowed, pid, i);
      if allowed {
        ReadPageFromDisk(l, pid, i);
      }
    }

    /** The entry for a virtual address, with its page brought in. */
    method FindPage(va: nat, pid: Pid, allowed: bool) returns (l: Loc)
      requires Inv(S()) && pid in dirs && pid == curr && va < 0x1_0000_0000
      modifies this`tlb, this`frames, this`swap, this`owner
      ensures Inv(S())
      ensures var was, i, j := old(S()), DirIndex(va), TableIndex(va);
              && l.index == j && HasPage(S(), pid, i, j) && l == Walk(S(), pid, i, j)
              && OnlyPage(was, S(), pid, i, j, if allowed || HasPage(was, pid, i, j) then Flat(was, pid, i, j) else Zeros())
    {
      ghost var i := DirIndex(va);
      IndexesOk(va);
      l := Translate(va, pid);
      EntryAt(S(), pid, i, l.index);
      if !frames[l.frame].entries[l.index].present {
        PageFault(l, allowed, pid, i);
      }
    }

    /** Reads n bytes of one page. An address outside all segments, or in one that must not be read, is a
        segmentation fault. The flat memory changes only when a read is denied on a page that
        is not in memory: that page is lost. */
    method Read(va: nat, pid: Pid, n: nat) returns (out: Outcome)
      requires Valid() && pid in dirs && va < 0x1_0000_0000 && Offset(va) + n <= PAGE
      modifies this`tlb, this`curr, this`frames, this`swap, this`owner
      ensures Valid()
      ensures match Find(segs[pid], va)
              case NoSegment => out == SegmentationFault && SameMemory(old(S()), S())
              case Found(g) => Fetched(old(S()), S(), pid, va, n, g.read, out)
    {
      ghost var was := S();
      SwitchTo(pid);
      ghost var mid := S();
      var found := Find(segs[pid], va);
      if found.NoSegment? {
        out := SegmentationFault;
        SameIsValid(was, S(), segs);
      } else {
        out := Fetch(va, pid, n, found.segment.read);
        FetchedIsValid(was, mid, S(), segs, pid, va, n, found.segment.read, out);
      }
    }

    /** The part of a read after the segment has been found. */
    method Fetch(va: nat, pid: Pid, n: nat, allowed: bool) returns (out: Outcome)
      requires Inv(S()) && pid in dirs && pid == curr && va < 0x1_0000_0000 && Offset(va) + n <= PAGE
      modifies this`tlb, this`frames, this`swap, this`owner
      ensures Inv(S()) && Fetched(old(S()), S(), pid, va, n, allowed, out)
    {
      FlatSize(S(), pid, DirIndex(va), TableIndex(va));
      IndexesOk(va);
      var l := FindPage(va, pid, allowed);
      if !allowed {
        return SegmentationFault;
      }
      EntryAt(S(), pid, DirIndex(va), l.index);
      var bytes := frames[frames[l.frame].entries[l.index].base].bytes;
      out := Done(bytes[Offset(va)..Offset(va) + n]);
    }

    /** Writes some bytes of one page. An address outside all segments, or in one that must not be written,
        is a segmentation fault, and then the flat memory stays as it is. */
    method Write(va: nat, pid: Pid, data: seq<bv8>) returns (out: Outcome)
      requires Valid() && pid in dirs && va < 0x1_0000_0000 && Offset(va) + |data| <= PAGE
      modifies this`tlb, this`curr, this`frames, this`swap, this`owner
      ensures Valid()
      ensures Writable(segs[pid], va) ==> Touched(S(), Walk(S(), pid, DirIndex(va), TableIndex(va)))
      ensures if Writable(segs[pid], va) then out == Done([]) && Written(old(S()), S(), pid, va, data)
              else out == SegmentationFault && SameMemory(old(S()), S())
    {
      ghost var was := S();
      SwitchTo(pid);
      ghost var mid := S();
      var found := Find(segs[pid], va);
      if found.NoSegment? {
        out := SegmentationFault;
        SameIsValid(was, S(), segs);
      } else {
        WritablePage(segs[pid], va);
        out := Put(va, pid, data, found.segment.write);
        if found.segment.write {
          WrittenIsValid(was, mid, S(), segs, pid, va, data);
        } else {
          DeniedWrite(was, mid, S(), segs, pid, va, out);
        }
      }
    }

    /** The part of a write after the segment has been found. */
    method Put(va: nat, pid: Pid, data: seq<bv8>, allowed: bool) returns (out: Outcome)
      requires Inv(S()) && pid in dirs && pid == curr && va < 0x1_0000_0000 && Offset(va) + |data| <= PAGE
      modifies this`tlb, this`frames, this`swap, this`owner
      ensures Inv(S())
      ensures allowed ==> Touched(S(), Walk(S(), pid, DirIndex(va), TableIndex(va)))
      ensures if allowed then out == Done([]) && Written(old(S()), S(), pid, va, data)
              else Fetched(old(S()), S(), pid, va, 0, false, out)
    {
      FlatSize(S(), pid, DirIndex(va), TableIndex(va));
      IndexesOk(va);
      var l := FindPage(va, pid, allowed);
      if !allowed {
        return SegmentationFault;
      }
      Store(l, Offset(va), data, pid, DirIndex(va));
      out := Done([]);
    }

    /** Copies the data into the frame of a page and marks its entry. */
    method Store(l: Loc, off: nat, data: seq<bv8>, ghost pid: Pid, ghost i: nat)
      requires Inv(S()) && pid in dirs && i < ENTRIES && l.index < ENTRIES && off + |data| <= PAGE
      requires HasPage(S(), pid, i, l.index) && l == Walk(S(), pid, i, l.index)
      modifies this`frames
      ensures Inv(S())
      ensures |Flat(old(S()), pid, i, l.index)| == PAGE
      ensures OnlyPage(old(S()), S(), pid, i, l.index, Stored(Flat(old(S()), pid, i, l.index), off, data))
      ensures l == Walk(S(), pid, i, l.index) && Touched(S(), l)
    {
      ghost var s := S();
      EntryAt(s, pid, i, l.index);
      var f := frames[l.frame].entries[l.index].base;
      var bytes := Stored(frames[f].bytes, off, data);
      WithBytesOk(s, pid, i, l.index, bytes);
      frames := frames[f := Page(bytes)];
      ghost var t := S();
      assert t == WithBytes(s, f, bytes);
      EntryAt(t, pid, i, l.index);
      var entries := frames[l.frame].entries;
      var e := entries[l.index].(accessed := true, dirty := true);
      WithFlagsOk(t, l, e);
      WithFlagsEntries(t, l, e);
      frames := frames[l.frame := Table(entries[l.index := e])];
      assert S() == WithFlags(t, l, e);
    }

    // -- Processes

    /** A process that is not registered yet gets an empty memory; the others keep theirs. */
    method AddProcess(pid: Pid)
      requires Valid() && pid !in dirs
      modifies this
      ensures Valid() && segs == old(segs)[pid := Segments()]
      ensures Added(old(S()), S(), pid) && curr == old(curr) && tlb == old(tlb)
      ensures HasTable(S(), pid, 0) && HasPage(S(), pid, 0, 2)
    {
      StandardSegments(0);
      AddSpace(pid);
      AddedIsValid(old(S()), S(), pid, segs);
      segs := segs[pid := Segments()];
    }

    method AddSpace(pid: Pid)
      requires Inv(S()) && pid !in dirs
      modifies this`dirs, this`frames, this`swap, this`owner
      ensures Inv(S()) && Added(old(S()), S(), pid) && HasTable(S(), pid, 0) && HasPage(S(), pid, 0, 2)
    {
      AddDirectory(pid);
      ghost var s := S();
      AddTable(pid, 0);
      MapTestPages(pid);
      AddedStays(old(S()), s, S(), pid);
    }

    /** Frames for the two pages of the testing segment; the kernel may take the first one away again for the second. */
    method MapTestPages(pid: Pid)
      requires Inv(S()) && pid in dirs && HasTable(S(), pid, 0)
      requires BlankPage(S(), pid, 1) && BlankPage(S(), pid, 2)
      modifies this`frames, this`swap, this`owner
      ensures Inv(S()) && SameMemory(old(S()), S()) && HasTable(S(), pid, 0) && HasPage(S(), pid, 0, 2)
    {
      ghost var was := S();
      for j := 1 to 3
        invariant Inv(S()) && SameMemory(was, S()) && HasTable(S(), pid, 0)
        invariant forall k :: j <= k < 3 ==> BlankPage(S(), pid, k)
        invariant j == 3 ==> HasPage(S(), pid, 0, 2)
      {
        ghost var before := S();
        MapTestPage(pid, j);
        SameMemoryJoins(was, before, S());
      }
    }

    method MapTestPage(pid: Pid, j: nat)
      requires Inv(S()) && pid in dirs && HasTable(S(), pid, 0) && j < ENTRIES
      requires BlankPage(S(), pid, j)
      modifies this`frames, this`swap, this`owner
      ensures Inv(S()) && SameMemory(old(S()), S()) && HasTable(S(), pid, 0) && HasPage(S(), pid, 0, j)
      ensures forall k :: k != j && BlankPage(old(S()), pid, k) ==> BlankPage(S(), pid, k)
    {
      assert DirOk(S(), pid);
      var l := Loc(frames[dirs[pid]].entries[0].base, j);
      ghost var before := S();
      MapPage(l, true, pid, 0);
      ZerosForZeros(before, S(), pid, 0, j);
    }

    method AddDirectory(pid: Pid)
      requires Inv(S()) && pid !in dirs
      modifies this`dirs, this`frames, this`swap, this`owner
      ensures Inv(S()) && Added(old(S()), S(), pid) && !HasTable(S(), pid, 0)
    {
      var f := AskKernel();
      ghost var s := S();
      WithDirOk(s, pid, f);
      dirs := dirs[pid := f];
      frames := frames[f := Dir(BlankEntries())];
      owner := owner[f := DirOf(pid)];
      assert S() == WithDir(s, pid, f);
      assert forall i, j :: Flat(s, pid, i, j) == Zeros();
    }

    /** Gives back every frame and swap file of a process, page by page and table by table. */
    method RemoveProcess(pid: Pid)
      requires Valid()
      modifies this
      ensures Valid() && dirs == old(dirs) - {pid} && segs == old(segs) - {pid}
      ensures forall p, i, j :: p != pid ==> Flat(S(), p, i, j) == Flat(old(S()), p, i, j)
      ensures Emptied(old(S()), frames, swap, pid)
    {
      ReturnFrames(pid);
      RemovedIsValid(old(S()), State(if curr == pid then map[] else tlb, curr, dirs - {pid}, frames, swap, owner), pid, segs);
      Unregister(pid);
    }

    method Unregister(pid: Pid)
      modifies this`dirs, this`segs, this`tlb
      ensures dirs == old(dirs) - {pid} && segs == old(segs) - {pid}
      ensures tlb == if curr == pid then map[] else old(tlb)
    {
      dirs := dirs - {pid};
      segs := segs - {pid};
      if curr == pid {
        tlb := map[];
      }
    }

    method ReturnFrames(pid: Pid)
      requires Inv(S())
      modifies this`frames, this`swap
      ensures Emptied(old(S()), frames, swap, pid)
    {
      if pid in dirs {
        ReturnAll(pid);
      } else {
        NothingOwned(S(), pid);
      }
    }

    method ReturnAll(pid: Pid)
      requires Inv(S()) && pid in dirs
      modifies this`frames, this`swap
      ensures Emptied(old(S()), frames, swap, pid)
    {
      ghost var s := S();
      assert DirOk(s, pid);
      var pd := dirs[pid];
      ReturnTables(pid, pd);
      DirectoryStays(s, frames, swap, pid, ENTRIES, pd);
      LastTable(s, frames, swap, pid, pd);
      frames := frames - {pd};
    }

    method ReturnTables(pid: Pid, pd: Frame)
      requires Inv(S()) && pid in dirs && pd == dirs[pid] && DirOk(S(), pid)
      modifies this`frames, this`swap
      ensures Returned(old(S()), frames, swap, pid, ENTRIES, 0)
    {
      ghost var s := S();
      for i := 0 to ENTRIES
        invariant Returned(s, frames, swap, pid, i, 0)
      {
        DirectoryStays(s, frames, swap, pid, i, pd);
        if frames[pd].entries[i].present {
          ReturnTable(s, pid, i, frames[pd].entries[i].base);
        } else {
          NoTable(s, frames, swap, pid, i);
        }
      }
    }

    method ReturnTable(ghost s: State, pid: Pid, i: nat, pt: Frame)
      requires Inv(s) && pid in s.dirs && i < ENTRIES && HasTable(s, pid, i) && pt == DirEntry(s, pid, i).base
      requires Returned(s, frames, swap, pid, i, 0)
      modifies this`frames, this`swap
      ensures Returned(s, frames, swap, pid, i + 1, 0)
    {
      assert TableOk(s, pid, i);
      for j := 0 to ENTRIES
        invariant Returned(s, frames, swap, pid, i, j)
      {
        assert !Gone(s, pid, i, j, pt);
        ghost var before, beforeSwap := frames, swap;
        var e := frames[pt].entries[j];
        if e.present {
          frames := frames - {e.base};
        }
        swap := swap - {Loc(pt, j)};
        NextPage(s, before, beforeSwap, frames, swap, pid, i, j, pt);
      }
      AfterTable(s, frames, swap, pid, i, pt);
      frames := frames - {pt};
    }
  }

  lemma AddedStays(s: State, m: State, r: State, pid: Pid)
    ensures Added(s, m, pid) && m.dirs.Keys == r.dirs.Keys && (forall p, i, j :: Flat(r, p, i, j) == Flat(m, p, i, j)) ==>
              Added(s, r, pid)
  {
  }

  lemma AddedIsValid(s: State, r: State, pid: Pid, segs: map<Pid, seq<Segment>>)
    ensures Added(s, r, pid) && UnwrittenIsZero(s, segs) ==> UnwrittenIsZero(r, segs[pid := Segments()])
  {
  }

  lemma RemovedIsValid(s: State, r: State, pid: Pid, segs: map<Pid, seq<Segment>>)
    requires Inv(s) && UnwrittenIsZero(s, segs)
    ensures Removed(s, r, pid) ==>
              && Inv(r) && UnwrittenIsZero(r, segs - {pid})
              && forall p, i, j :: p != pid ==> Flat(r, p, i, j) == Flat(s, p, i, j)
  {
    if Removed(s, r, pid) {
      RemovedOk(s, r, pid);
    }
  }

  ghost predicate Before(i: nat, j: nat, k: nat, m: nat) {
    i < k || (i == k && j < m)
  }

  /** The frames of a process that have been given back when the loops are at table i and page j. */
  ghost predicate Gone(s: State, pid: Pid, i: nat, j: nat, f: Frame) {
    && f in s.owner
    && match s.owner[f]
       case DirOf(_) => false
       case TableOf(p, k) => p == pid && k < i
       case PageOf(p, k, m) => p == pid && Before(k, m, i, j)
  }

  ghost predicate GoneSwap(s: State, pid: Pid, i: nat, j: nat, l: Loc) {
    l.frame in s.owner && s.owner[l.frame].TableOf? && s.owner[l.frame].pid == pid && Before(s.owner[l.frame].i, l.index, i, j)
  }

  ghost predicate Returned(s: State, frames: map<Frame, Content>, swap: map<Loc, seq<bv8>>, pid: Pid, i: nat, j: nat) {
    && (forall f :: f in frames <==> f in s.frames && !Gone(s, pid, i, j, f))
    && (forall f :: f in frames ==> frames[f] == s.frames[f])
    && (forall l :: l in swap <==> l in s.swap && !GoneSwap(s, pid, i, j, l))
    && (forall l :: l in swap ==> swap[l] == s.swap[l])
  }

  lemma NextPage(s: State, frames: map<Frame, Content>, swap: map<Loc, seq<bv8>>,
                 frames': map<Frame, Content>, swap': map<Loc, seq<bv8>>, pid: Pid, i: nat, j: nat, pt: Frame)
    requires Tree(s) && pid in s.dirs && i < ENTRIES && j < ENTRIES && HasTable(s, pid, i) && pt == DirEntry(s, pid, i).base
    requires Returned(s, frames, swap, pid, i, j)
    requires var e := TableEntry(s, Loc(pt, j)); frames' == if e.present then frames - {e.base} else frames
    requires swap' == swap - {Loc(pt, j)}
    ensures Returned(s, frames', swap', pid, i, j + 1)
  {
    assert TableOk(s, pid, i);
    if HasPage(s, pid, i, j) { assert PageOk(s, pid, i, j); }
    forall f | f in s.frames ensures f in frames' <==> !Gone(s, pid, i, j + 1, f) {
      assert Reached(s, f);
    }
    forall l | l in s.swap ensures l in swap' <==> !GoneSwap(s, pid, i, j + 1, l) {
      assert SwapOk(s, l) && Reached(s, l.frame);
    }
  }

  lemma AfterTable(s: State, frames: map<Frame, Content>, swap: map<Loc, seq<bv8>>, pid: Pid, i: nat, pt: Frame)
    requires Tree(s) && pid in s.dirs && i < ENTRIES && HasTable(s, pid, i) && pt == DirEntry(s, pid, i).base
    requires Returned(s, frames, swap, pid, i, ENTRIES)
    ensures Returned(s, frames - {pt}, swap, pid, i + 1, 0)
  {
    assert TableOk(s, pid, i);
    forall f | f in s.frames ensures f in frames - {pt} <==> !Gone(s, pid, i + 1, 0, f) {
      assert Reached(s, f);
    }
    forall l | l in s.swap ensures l in swap <==> !GoneSwap(s, pid, i + 1, 0, l) {
      assert SwapOk(s, l) && Reached(s, l.frame);
    }
  }

  lemma NoTable(s: State, frames: map<Frame, Content>, swap: map<Loc, seq<bv8>>, pid: Pid, i: nat)
    requires Tree(s) && !HasTable(s, pid, i) && Returned(s, frames, swap, pid, i, 0)
    ensures Returned(s, frames, swap, pid, i + 1, 0)
  {
    forall f | f in s.frames ensures Gone(s, pid, i + 1, 0, f) <==> Gone(s, pid, i, 0, f) {
      assert Reached(s, f);
    }
    forall l | l in s.swap ensures GoneSwap(s, pid, i + 1, 0, l) <==> GoneSwap(s, pid, i, 0, l) {
      assert SwapOk(s, l) && Reached(s, l.frame);
    }
  }

  lemma DirectoryStays(s: State, frames: map<Frame, Content>, swap: map<Loc, seq<bv8>>, pid: Pid, i: nat, pd: Frame)
    requires Tree(s) && pid in s.dirs && pd == s.dirs[pid] && Returned(s, frames, swap, pid, i, 0)
    ensures pd in frames && frames[pd] == s.frames[pd] && frames[pd].Dir? && |frames[pd].entries| == ENTRIES
    ensures i < ENTRIES ==> DirEntry(s, pid, i) == frames[pd].entries[i]
  {
    assert DirOk(s, pid);
  }

  lemma LastTable(s: State, frames: map<Frame, Content>, swap: map<Loc, seq<bv8>>, pid: Pid, pd: Frame)
    requires Tree(s) && pid in s.dirs && pd == s.dirs[pid] && Returned(s, frames, swap, pid, ENTRIES, 0)
    ensures Emptied(s, frames - {pd}, swap, pid)
  {
    assert DirOk(s, pid);
    forall f | f in s.frames ensures f in frames - {pd} <==> !Owned(s, f, pid) {
      assert Reached(s, f);
    }
    forall l | l in s.swap ensures l in swap <==> !Owned(s, l.frame, pid) {
      assert SwapOk(s, l) && Reached(s, l.frame);
    }
  }

  lemma NothingOwned(s: State, pid: Pid)
    requires Tree(s) && pid !in s.dirs
    ensures forall f :: f in s.frames ==> !Owned(s, f, pid)
    ensures forall l :: l in s.swap ==> !Owned(s, l.frame, pid)
  {
    forall f | f in s.frames ensures !Owned(s, f, pid) { assert Reached(s, f); }
    forall l | l in s.swap ensures !Owned(s, l.frame, pid) { assert SwapOk(s, l); }
  }

  /** Where the walk ends there is an entry, and if it is present, a page. */
  lemma EntryAt(s: State, pid: Pid, i: nat, j: nat)
    requires Tree(s) && HasTable(s, pid, i) && j < ENTRIES
    ensures var l := Walk(s, pid, i, j);
            && l.frame in s.frames && s.frames[l.frame].Table? && |s.frames[l.frame].entries| == ENTRIES
            && TableEntry(s, l) == s.frames[l.frame].entries[j]
            && (s.frames[l.frame].entries[j].present <==> HasPage(s, pid, i, j))
            && (HasPage(s, pid, i, j) ==>
                  var f := s.frames[l.frame].entries[j].base;
                  && f in s.frames && s.frames[f].Page? && |s.frames[f].bytes| == PAGE
                  && s.frames[f].bytes == Flat(s, pid, i, j))
  {
    assert TableOk(s, pid, i);
    if HasPage(s, pid, i, j) { assert PageOk(s, pid, i, j); }
  }

  lemma ZerosForZeros(s: State, r: State, pid: Pid, i: nat, j: nat)
    requires Flat(s, pid, i, j) == Zeros()
    ensures OnlyPage(s, r, pid, i, j, Zeros()) ==> SameMemory(s, r)
  {
  }

  lemma SameIsValid(s: State, r: State, segs: map<Pid, seq<Segment>>)
    ensures SameMemory(s, r) && UnwrittenIsZero(s, segs) ==> UnwrittenIsZero(r, segs)
  {
  }

  ghost predicate SamePages(s: State, r: State) {
    SameMemory(s, r) && forall p, i, j :: HasPage(r, p, i, j) <==> HasPage(s, p, i, j)
  }

  lemma FetchedIsValid(was: State, mid: State, now: State, segs: map<Pid, seq<Segment>>,
                       pid: Pid, va: nat, n: nat, allowed: bool, out: Outcome)
    ensures SamePages(was, mid) && UnwrittenIsZero(was, segs) && Fetched(mid, now, pid, va, n, allowed, out) ==>
              UnwrittenIsZero(now, segs) && Fetched(was, now, pid, va, n, allowed, out)
  {
  }

  /** A denied write leaves the flat memory as it is, because a page that cannot be written is zero. */
  lemma DeniedWrite(was: State, mid: State, now: State, segs: map<Pid, seq<Segment>>, pid: Pid, va: nat, out: Outcome)
    requires pid in segs && pid in was.dirs && !Writable(segs[pid], PageStart(DirIndex(va), TableIndex(va)))
    ensures SamePages(was, mid) && UnwrittenIsZero(was, segs) && Fetched(mid, now, pid, va, 0, false, out) ==>
              UnwrittenIsZero(now, segs) && SameMemory(was, now)
  {
  }

  lemma WrittenIsValid(was: State, mid: State, now: State, segs: map<Pid, seq<Segment>>, pid: Pid, va: nat, data: seq<bv8>)
    requires pid in segs && Writable(segs[pid], PageStart(DirIndex(va), TableIndex(va)))
    ensures SamePages(was, mid) && UnwrittenIsZero(was, segs) && Written(mid, now, pid, va, data) ==>
              UnwrittenIsZero(now, segs) && Written(was, now, pid, va, data)
  {
  }

  lemma SameMemoryJoins(s: State, t: State, r: State)
    requires SameMemory(s, t) && SameMemory(t, r)
    ensures SameMemory(s, r)
  {
  }

  /** The flat memory does not depend on the TLB. */
  lemma SameMemoryAs(s: State, r: State)
    requires r == s.(tlb := r.tlb, curr := r.curr)
    ensures SameMemory(s, r)
    ensures forall p, i, j :: HasPage(r, p, i, j) <==> HasPage(s, p, i, j)
    ensures Tree(s) ==> Tree(r)
  {
    forall p, k ensures DirEntry(r, p, k) == DirEntry(s, p, k) {}
    forall l ensures TableEntry(r, l) == TableEntry(s, l) {}
    forall p, k, j ensures Flat(r, p, k, j) == Flat(s, p, k, j) {}
    if Tree(s) {
      forall p | p in r.dirs ensures DirOk(r, p) { assert DirOk(s, p); }
      forall p, k | HasTable(r, p, k) ensures TableOk(r, p, k) { assert HasTable(s, p, k) && TableOk(s, p, k); }
      forall p, k, m | HasPage(r, p, k, m) ensures PageOk(r, p, k, m) { assert HasPage(s, p, k, m) && PageOk(s, p, k, m); }
      forall g | g in r.frames ensures Reached(r, g) { assert Reached(s, g); }
      forall m | m in r.swap ensures SwapOk(r, m) { assert SwapOk(s, m); }
    }
  }

  lemma RememberOk(s: State, r: State, vpn: nat)
    requires Inv(s) && r == s.(tlb := r.tlb) && vpn in r.tlb
    requires forall v :: v in r.tlb && v != vpn ==> v in s.tlb && r.tlb[v] == s.tlb[v]
    requires s.curr in s.dirs && HasTable(s, s.curr, vpn / ENTRIES)
    requires r.tlb[vpn] == Walk(s, s.curr, vpn / ENTRIES, vpn % ENTRIES)
    ensures Inv(r) && SameMemory(s, r)
    ensures forall p, i, j :: HasPage(r, p, i, j) <==> HasPage(s, p, i, j)
  {
    SameMemoryAs(s, r);
    forall p, k ensures DirEntry(r, p, k) == DirEntry(s, p, k) {}
    forall v | v in r.tlb ensures TlbOk(r, v) { if v != vpn { assert TlbOk(s, v); } }
  }

  lemma TableWalk(s: State, l: Loc, pid: Pid, i: nat)
    requires Tree(s) && l.frame in s.frames && s.frames[l.frame].Table? && l.index < |s.frames[l.frame].entries|
    requires l.frame in s.owner && s.owner[l.frame].TableOf? && s.owner[l.frame] == TableOf(pid, i)
    requires s.frames[l.frame].entries[l.index].present
    ensures pid in s.dirs && i < ENTRIES && l.index < ENTRIES && Walk(s, pid, i, l.index) == l && HasPage(s, pid, i, l.index)
    ensures PageOk(s, pid, i, l.index)
  {
    assert Reached(s, l.frame) && TableOk(s, pid, i);
  }
}
