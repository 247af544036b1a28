/** The memory that the two-level page walk goes through, and the flat memory it stands for. */
module MmuState {

  type Pid = nat
  type Frame = nat

  /** NUM_ENTRIES and PAGE_SIZE. */
  const ENTRIES: nat := 1024
  const PAGE: nat := 4096

  /** A page-directory or page-table entry. */
  datatype Entry = Entry(present: bool, base: Frame, readWrite: bool, user: bool, accessed: bool, dirty: bool)

  const Blank := Entry(false, 0, false, false, false, false)

  function BlankEntries(): (r: seq<Entry>)
    ensures |r| == ENTRIES && forall i :: 0 <= i < |r| ==> r[i] == Blank
  {
    seq(ENTRIES, _ => Blank)
  }

  function Zeros(): (r: seq<bv8>)
    ensures |r| == PAGE && forall i :: 0 <= i < |r| ==> r[i] == 0
  {
    seq(PAGE, _ => 0)
  }

  /** A frame of physical memory, by what it is used for. */
  datatype Content = Dir(entries: seq<Entry>) | Table(entries: seq<Entry>) | Page(bytes: seq<bv8>)

  /** The address of a page-table entry: what the TLB and the swap files go by. */
  datatype Loc = Loc(frame: Frame, index: nat)

  /** Whose a frame is: for the proof only. */
  datatype Owner = DirOf(pid: Pid) | TableOf(pid: Pid, i: nat) | PageOf(pid: Pid, i: nat, j: nat)

  datatype State = State(
    tlb: map<nat, Loc>, curr: Pid,
    dirs: map<Pid, Frame>, frames: map<Frame, Content>, swap: map<Loc, seq<bv8>>,
    owner: map<Frame, Owner>)

  // -- The walk

  function DirEntry(s: State, pid: Pid, i: nat): Entry {
    if pid in s.dirs && s.dirs[pid] in s.frames && s.frames[s.dirs[pid]].Dir? && i < |s.frames[s.dirs[pid]].entries|
    then s.frames[s.dirs[pid]].entries[i]
    else Blank
  }

  function TableEntry(s: State, l: Loc): Entry {
    if l.frame in s.frames && s.frames[l.frame].Table? && l.index < |s.frames[l.frame].entries|
    then s.frames[l.frame].entries[l.index]
    else Blank
  }

  function PageBytes(s: State, f: Frame): seq<bv8> {
    if f in s.frames && s.frames[f].Page? then s.frames[f].bytes else Zeros()
  }

  /** The page-table entry of page j below directory entry i. */
  function Walk(s: State, pid: Pid, i: nat, j: nat): Loc {
    Loc(DirEntry(s, pid, i).base, j)
  }

  /** The contents of a page of the flat memory of a process, wherever they are kept. */
  function Flat(s: State, pid: Pid, i: nat, j: nat): seq<bv8> {
    var l := Walk(s, pid, i, j);
    if !DirEntry(s, pid, i).present then Zeros()
    else if TableEntry(s, l).present then PageBytes(s, TableEntry(s, l).base)
    else if l in s.swap then s.swap[l]
    else Zeros()
  }

  // -- What holds in every state

  ghost predicate DirOk(s: State, pid: Pid)
    requires pid in s.dirs
  {
    var f := s.dirs[pid];
    && f in s.frames && f in s.owner
    && s.frames[f].Dir? && |s.frames[f].entries| == ENTRIES
    && s.owner[f] == DirOf(pid)
  }

  ghost predicate TableOk(s: State, pid: Pid, i: nat) {
    var f := DirEntry(s, pid, i).base;
    && f in s.frames && f in s.owner
    && s.frames[f].Table? && |s.frames[f].entries| == ENTRIES
    && s.owner[f] == TableOf(pid, i)
  }

  ghost predicate PageOk(s: State, pid: Pid, i: nat, j: nat) {
    var f := TableEntry(s, Walk(s, pid, i, j)).base;
    && f in s.frames && f in s.owner
    && s.frames[f].Page? && |s.frames[f].bytes| == PAGE
    && s.owner[f] == PageOf(pid, i, j)
  }

  /** A frame is reached by the walk its owner tag names. */
  ghost predicate Reached(s: State, f: Frame) {
    && f in s.owner
    && match s.owner[f]
       case DirOf(pid) => pid in s.dirs && s.dirs[pid] == f
       case TableOf(pid, i) => pid in s.dirs && i < ENTRIES && HasTable(s, pid, i) && DirEntry(s, pid, i).base == f
       case PageOf(pid, i, j) =>
         && pid in s.dirs && i < ENTRIES && j < ENTRIES && HasTable(s, pid, i)
         && HasPage(s, pid, i, j) && TableEntry(s, Walk(s, pid, i, j)).base == f
  }

  ghost predicate HasTable(s: State, pid: Pid, i: nat) {
    DirEntry(s, pid, i).present
  }

  ghost predicate HasPage(s: State, pid: Pid, i: nat, j: nat) {
    HasTable(s, pid, i) && TableEntry(s, Walk(s, pid, i, j)).present
  }

  /** A swap file belongs to an entry of a table that is in use. */
  ghost predicate SwapOk(s: State, l: Loc)
    requires l in s.swap
  {
    |s.swap[l]| == PAGE && l.index < ENTRIES && l.frame in s.frames && s.frames[l.frame].Table?
  }

  /** A cached entry is the entry that the walk of the current process reaches. */
  ghost predicate TlbOk(s: State, vpn: nat)
    requires vpn in s.tlb
  {
    && s.curr in s.dirs
    && HasTable(s, s.curr, vpn / ENTRIES)
    && s.tlb[vpn] == Walk(s, s.curr, vpn / ENTRIES, vpn % ENTRIES)
  }

  /** Every structure is where its entry says, and nobody else's. */
  ghost predicate Tree(s: State) {
    && (forall pid :: pid in s.dirs ==> DirOk(s, pid))
    && (forall pid, i :: HasTable(s, pid, i) ==> TableOk(s, pid, i))
    && (forall pid, i, j :: HasPage(s, pid, i, j) ==> PageOk(s, pid, i, j))
    && (forall f :: f in s.frames ==> Reached(s, f))
    && (forall l :: l in s.swap ==> SwapOk(s, l))
  }

  ghost predicate Inv(s: State) {
    Tree(s) && forall vpn :: vpn in s.tlb ==> TlbOk(s, vpn)
  }

  /** The same flat memory for the same processes. */
  ghost predicate SameMemory(s: State, r: State) {
    s.dirs.Keys == r.dirs.Keys && forall pid, i, j :: Flat(r, pid, i, j) == Flat(s, pid, i, j)
  }

  lemma FlatSize(s: State, pid: Pid, i: nat, j: nat)
    requires Tree(s)
    ensures |Flat(s, pid, i, j)| == PAGE
  {
    if HasPage(s, pid, i, j) {
      assert PageOk(s, pid, i, j);
    } else if HasTable(s, pid, i) && Walk(s, pid, i, j) in s.swap {
      assert SwapOk(s, Walk(s, pid, i, j));
    }
  }

  /** Two walks that end in the same entry are the same walk. */
  lemma WalkInjective(s: State, pid: Pid, i: nat, j: nat, pid': Pid, i': nat, j': nat)
    requires Tree(s) && HasTable(s, pid, i) && HasTable(s, pid', i') && Walk(s, pid, i, j) == Walk(s, pid', i', j')
    ensures pid == pid' && i == i' && j == j'
  {
    assert TableOk(s, pid, i) && TableOk(s, pid', i');
  }

  /** Entries that stay where they are keep the TLB coherent. */
  lemma TlbKept(s: State, r: State)
    requires r.tlb == s.tlb && r.curr == s.curr && forall vpn :: vpn in s.tlb ==> TlbOk(s, vpn)
    requires s.dirs.Keys <= r.dirs.Keys
    requires forall p, k :: HasTable(s, p, k) ==> HasTable(r, p, k) && DirEntry(r, p, k).base == DirEntry(s, p, k).base
    ensures forall vpn :: vpn in r.tlb ==> TlbOk(r, vpn)
  {
    forall vpn | vpn in r.tlb ensures TlbOk(r, vpn) { assert TlbOk(s, vpn); }
  }

  // -- The steps that change it

  /** A new, empty table for directory entry i. */
  function WithTable(s: State, pid: Pid, i: nat, f: Frame): State
    requires pid in s.dirs && s.dirs[pid] in s.frames && s.frames[s.dirs[pid]].Dir? && i < |s.frames[s.dirs[pid]].entries|
  {
    var d := s.dirs[pid];
    s.(frames := s.frames[d := Dir(s.frames[d].entries[i := Entry(true, f, true, true, false, false)])]
                         [f := Table(BlankEntries())],
       owner := s.owner[f := TableOf(pid, i)])
  }

  lemma WithTableEntries(s: State, pid: Pid, i: nat, f: Frame)
    requires Tree(s) && pid in s.dirs && i < ENTRIES && f !in s.frames
    ensures DirOk(s, pid)
    ensures var r := WithTable(s, pid, i, f);
            && (forall p, k :: DirEntry(r, p, k) ==
                  if p == pid && k == i then Entry(true, f, true, true, false, false) else DirEntry(s, p, k))
            && (forall l: Loc :: TableEntry(r, l) == if l.frame == f then Blank else TableEntry(s, l))
  {
    assert DirOk(s, pid);
    var r := WithTable(s, pid, i, f);
    forall p, k ensures DirEntry(r, p, k) ==
      if p == pid && k == i then Entry(true, f, true, true, false, false) else DirEntry(s, p, k)
    {
      assert p in s.dirs ==> DirOk(s, p);
    }
  }

  lemma WithTableTree(s: State, pid: Pid, i: nat, f: Frame)
    requires Tree(s) && pid in s.dirs && i < ENTRIES && !HasTable(s, pid, i) && f !in s.frames
    ensures DirOk(s, pid) && Tree(WithTable(s, pid, i, f))
  {
    WithTableEntries(s, pid, i, f);
    var r := WithTable(s, pid, i, f);
    forall p | p in r.dirs ensures DirOk(r, p) { assert DirOk(s, p); }
    forall p, k | HasTable(r, p, k) ensures TableOk(r, p, k) {
      if !(p == pid && k == i) { assert HasTable(s, p, k) && TableOk(s, p, k); }
    }
    forall p, k, j | HasPage(r, p, k, j) ensures PageOk(r, p, k, j) {
      assert HasPage(s, p, k, j) && PageOk(s, p, k, j);
    }
    forall g | g in r.frames ensures Reached(r, g) { if g != f { assert Reached(s, g); } }
    forall l | l in r.swap ensures SwapOk(r, l) { assert SwapOk(s, l); }
  }

  lemma WithTableOk(s: State, pid: Pid, i: nat, f: Frame)
    requires Inv(s) && pid in s.dirs && i < ENTRIES && !HasTable(s, pid, i) && f !in s.frames
    ensures DirOk(s, pid) && Inv(WithTable(s, pid, i, f)) && SameMemory(s, WithTable(s, pid, i, f))
    ensures HasTable(WithTable(s, pid, i, f), pid, i)
  {
    WithTableTree(s, pid, i, f);
    WithTableEntries(s, pid, i, f);
    var r := WithTable(s, pid, i, f);
    TlbKept(s, r);
    forall p, k, j ensures Flat(r, p, k, j) == Flat(s, p, k, j) {
      if HasTable(s, p, k) { assert TableOk(s, p, k); }
      if HasPage(s, p, k, j) { assert PageOk(s, p, k, j); }
      assert Loc(f, j) in s.swap ==> SwapOk(s, Loc(f, j));
    }
  }

  /** A new, cleared page frame for the entry at l. */
  function WithPage(s: State, l: Loc, f: Frame, e: Entry, o: Owner): State
    requires l.frame in s.frames && s.frames[l.frame].Table? && l.index < |s.frames[l.frame].entries|
  {
    s.(frames := s.frames[l.frame := Table(s.frames[l.frame].entries[l.index := e])][f := Page(Zeros())],
       owner := s.owner[f := o])
  }

  /** The flat memory of one page has become bytes; nothing else has changed. */
  ghost predicate OnlyPage(s: State, r: State, pid: Pid, i: nat, j: nat, bytes: seq<bv8>) {
    && s.dirs.Keys == r.dirs.Keys
    && forall p, k, m :: Flat(r, p, k, m) == if p == pid && k == i && m == j then bytes else Flat(s, p, k, m)
  }

  lemma WithPageEntries(s: State, l: Loc, f: Frame, e: Entry, o: Owner)
    requires Tree(s) && f !in s.frames
    requires l.frame in s.frames && s.frames[l.frame].Table? && l.index < |s.frames[l.frame].entries|
    ensures var r := WithPage(s, l, f, e, o);
            && (forall p, k :: DirEntry(r, p, k) == DirEntry(s, p, k))
            && (forall m: Loc :: TableEntry(r, m) == if m == l then e else if m.frame == f then Blank else TableEntry(s, m))
  {
    var r := WithPage(s, l, f, e, o);
    forall p, k ensures DirEntry(r, p, k) == DirEntry(s, p, k) { assert p in s.dirs ==> DirOk(s, p); }
  }

  lemma WithPageTree(s: State, pid: Pid, i: nat, j: nat, f: Frame, e: Entry)
    requires Tree(s) && pid in s.dirs && i < ENTRIES && j < ENTRIES && HasTable(s, pid, i) && !HasPage(s, pid, i, j)
    requires f !in s.frames && e.present && e.base == f
    ensures TableOk(s, pid, i)
    ensures Tree(WithPage(s, Walk(s, pid, i, j), f, e, PageOf(pid, i, j)))
  {
    assert TableOk(s, pid, i);
    var l := Walk(s, pid, i, j);
    var r := WithPage(s, l, f, e, PageOf(pid, i, j));
    WithPageEntries(s, l, f, e, PageOf(pid, i, j));
    forall p | p in r.dirs ensures DirOk(r, p) { assert DirOk(s, p); }
    forall p, k | HasTable(r, p, k) ensures TableOk(r, p, k) { assert HasTable(s, p, k) && TableOk(s, p, k); }
    forall p, k, m | HasPage(r, p, k, m) ensures PageOk(r, p, k, m) {
      assert HasTable(s, p, k) && TableOk(s, p, k);
      if p == pid && k == i && m == j {
      } else {
        if Walk(s, p, k, m) == l { WalkInjective(s, p, k, m, pid, i, j); }
        assert HasPage(s, p, k, m) && PageOk(s, p, k, m);
      }
    }
    forall g | g in r.frames ensures Reached(r, g) { if g != f { assert Reached(s, g); } }
    forall m | m in r.swap ensures SwapOk(r, m) { assert SwapOk(s, m); }
  }

  lemma WithPageOk(s: State, pid: Pid, i: nat, j: nat, f: Frame, e: Entry)
    requires Inv(s) && pid in s.dirs && i < ENTRIES && j < ENTRIES && HasTable(s, pid, i) && !HasPage(s, pid, i, j)
    requires f !in s.frames && e.present && e.base == f
    ensures TableOk(s, pid, i)
    ensures var r := WithPage(s, Walk(s, pid, i, j), f, e, PageOf(pid, i, j));
            && Inv(r) && OnlyPage(s, r, pid, i, j, Zeros())
            && HasTable(r, pid, i) && Walk(r, pid, i, j) == Walk(s, pid, i, j) && TableEntry(r, Walk(s, pid, i, j)) == e
  {
    assert TableOk(s, pid, i);
    var l := Walk(s, pid, i, j);
    var r := WithPage(s, l, f, e, PageOf(pid, i, j));
    WithPageEntries(s, l, f, e, PageOf(pid, i, j));
    WithPageTree(s, pid, i, j, f, e);
    TlbKept(s, r);
    WithPageFlat(s, r, pid, i, j, f, e);
  }

  lemma WithPageFlat(s: State, r: State, pid: Pid, i: nat, j: nat, f: Frame, e: Entry)
    requires Tree(s) && pid in s.dirs && i < ENTRIES && j < ENTRIES && HasTable(s, pid, i) && !HasPage(s, pid, i, j)
    requires f !in s.frames && e.present && e.base == f
    requires TableOk(s, pid, i) && r == WithPage(s, Walk(s, pid, i, j), f, e, PageOf(pid, i, j))
    ensures OnlyPage(s, r, pid, i, j, Zeros())
  {
    var l := Walk(s, pid, i, j);
    WithPageEntries(s, l, f, e, PageOf(pid, i, j));
    forall p, k, m ensures Flat(r, p, k, m) == if p == pid && k == i && m == j then Zeros() else Flat(s, p, k, m) {
      if HasTable(s, p, k) {
        assert TableOk(s, p, k);
        if Walk(s, p, k, m) == l { WalkInjective(s, p, k, m, pid, i, j); }
      }
      if HasPage(s, p, k, m) { assert PageOk(s, p, k, m); }
    }
  }

  /** New contents of a page frame. */
  function WithBytes(s: State, f: Frame, bytes: seq<bv8>): State {
    s.(frames := s.frames[f := Page(bytes)])
  }

  lemma WithBytesOk(s: State, pid: Pid, i: nat, j: nat, bytes: seq<bv8>)
    requires Inv(s) && pid in s.dirs && i < ENTRIES && j < ENTRIES && HasPage(s, pid, i, j) && |bytes| == PAGE
    ensures PageOk(s, pid, i, j)
    ensures var r := WithBytes(s, TableEntry(s, Walk(s, pid, i, j)).base, bytes);
            && Inv(r) && OnlyPage(s, r, pid, i, j, bytes)
            && HasTable(r, pid, i) && Walk(r, pid, i, j) == Walk(s, pid, i, j)
            && TableEntry(r, Walk(s, pid, i, j)) == TableEntry(s, Walk(s, pid, i, j))
  {
    assert PageOk(s, pid, i, j);
    var f := TableEntry(s, Walk(s, pid, i, j)).base;
    var r := WithBytes(s, f, bytes);
    forall p, k ensures DirEntry(r, p, k) == DirEntry(s, p, k) { assert p in s.dirs ==> DirOk(s, p); }
    forall m: Loc ensures TableEntry(r, m) == TableEntry(s, m) {}
    forall p | p in r.dirs ensures DirOk(r, p) { assert DirOk(s, p); }
    forall p, k | HasTable(r, p, k) ensures TableOk(r, p, k) { assert HasTable(s, p, k) && TableOk(s, p, k); }
    forall p, k, m | HasPage(r, p, k, m) ensures PageOk(r, p, k, m) { assert HasPage(s, p, k, m) && PageOk(s, p, k, m); }
    forall g | g in r.frames ensures Reached(r, g) { assert Reached(s, g); }
    forall m | m in r.swap ensures SwapOk(r, m) { assert SwapOk(s, m); }
    TlbKept(s, r);
    forall p, k, m ensures Flat(r, p, k, m) == if p == pid && k == i && m == j then bytes else Flat(s, p, k, m) {
      if HasTable(s, p, k) { assert TableOk(s, p, k); }
      if HasPage(s, p, k, m) { assert PageOk(s, p, k, m); }
    }
  }

  /** Other flags in the entry at l. */
  function WithFlags(s: State, l: Loc, e: Entry): State
    requires l.frame in s.frames && s.frames[l.frame].Table? && l.index < |s.frames[l.frame].entries|
  {
    s.(frames := s.frames[l.frame := Table(s.frames[l.frame].entries[l.index := e])])
  }

  lemma WithFlagsEntries(s: State, l: Loc, e: Entry)
    requires Tree(s) && l.frame in s.frames && s.frames[l.frame].Table? && l.index < |s.frames[l.frame].entries|
    ensures var r := WithFlags(s, l, e);
            && (forall p, k :: DirEntry(r, p, k) == DirEntry(s, p, k))
            && (forall m: Loc :: TableEntry(r, m) == if m == l then e else TableEntry(s, m))
  {
    var r := WithFlags(s, l, e);
    forall p, k ensures DirEntry(r, p, k) == DirEntry(s, p, k) { assert p in s.dirs ==> DirOk(s, p); }
  }

  lemma WithFlagsOk(s: State, l: Loc, e: Entry)
    requires Inv(s) && l.frame in s.frames && s.frames[l.frame].Table? && l.index < |s.frames[l.frame].entries|
    requires e.present == TableEntry(s, l).present && e.base == TableEntry(s, l).base
    ensures Inv(WithFlags(s, l, e)) && SameMemory(s, WithFlags(s, l, e))
  {
    var r := WithFlags(s, l, e);
    WithFlagsEntries(s, l, e);
    WithFlagsTree(s, l, e);
    TlbKept(s, r);
    forall p, k, m ensures Flat(r, p, k, m) == Flat(s, p, k, m) {
      if HasTable(s, p, k) { assert TableOk(s, p, k); }
      if HasPage(s, p, k, m) { assert PageOk(s, p, k, m); }
    }
  }

  lemma WithFlagsTree(s: State, l: Loc, e: Entry)
    requires Tree(s) && l.frame in s.frames && s.frames[l.frame].Table? && l.index < |s.frames[l.frame].entries|
    requires e.present == TableEntry(s, l).present && e.base == TableEntry(s, l).base
    ensures Tree(WithFlags(s, l, e))
  {
    var r := WithFlags(s, l, e);
    WithFlagsEntries(s, l, e);
    forall p | p in r.dirs ensures DirOk(r, p) { assert DirOk(s, p); }
    forall p, k | HasTable(r, p, k) ensures TableOk(r, p, k) { assert HasTable(s, p, k) && TableOk(s, p, k); }
    forall p, k, m | HasPage(r, p, k, m) ensures PageOk(r, p, k, m) { assert HasPage(s, p, k, m) && PageOk(s, p, k, m); }
    forall g | g in r.frames ensures Reached(r, g) { assert Reached(s, g); }
    forall m | m in r.swap ensures SwapOk(r, m) { assert SwapOk(s, m); }
  }

  /** The page of the entry at l saved to its swap file, and its frame taken away. */
  function Evicted(s: State, l: Loc): State
    requires l.frame in s.frames && s.frames[l.frame].Table? && l.index < |s.frames[l.frame].entries|
  {
    var e := TableEntry(s, l);
    s.(frames := s.frames[l.frame := Table(s.frames[l.frame].entries[l.index := e.(present := false)])] - {e.base},
       owner := s.owner - {e.base},
       swap := s.swap[l := PageBytes(s, e.base)])
  }

  lemma EvictedOk(s: State, pid: Pid, i: nat, j: nat)
    requires Inv(s) && pid in s.dirs && i < ENTRIES && j < ENTRIES && HasPage(s, pid, i, j)
    ensures TableOk(s, pid, i)
    ensures var r := Evicted(s, Walk(s, pid, i, j)); Inv(r) && SameMemory(s, r)
    ensures var l, r := Walk(s, pid, i, j), Evicted(s, Walk(s, pid, i, j));
            && (forall p, k :: DirEntry(r, p, k) == DirEntry(s, p, k))
            && (forall m :: TableEntry(r, m) == if m == l then TableEntry(s, l).(present := false) else TableEntry(s, m))
  {
    assert TableOk(s, pid, i) && PageOk(s, pid, i, j);
    var l := Walk(s, pid, i, j);
    var f := TableEntry(s, l).base;
    var r := Evicted(s, l);
    forall p, k ensures DirEntry(r, p, k) == DirEntry(s, p, k) { assert p in s.dirs ==> DirOk(s, p); }
    forall m: Loc ensures TableEntry(r, m) == if m == l then TableEntry(s, l).(present := false) else TableEntry(s, m) {}
    forall p | p in r.dirs ensures DirOk(r, p) { assert DirOk(s, p); }
    forall p, k | HasTable(r, p, k) ensures TableOk(r, p, k) { assert HasTable(s, p, k) && TableOk(s, p, k); }
    forall p, k, m | HasTable(s, p, k) && Walk(s, p, k, m) == l ensures p == pid && k == i && m == j {
      WalkInjective(s, p, k, m, pid, i, j);
    }
    forall p, k, m | HasPage(r, p, k, m) ensures PageOk(r, p, k, m) { assert HasPage(s, p, k, m) && PageOk(s, p, k, m); }
    forall g | g in r.frames ensures Reached(r, g) { assert Reached(s, g); }
    forall m | m in r.swap ensures SwapOk(r, m) { if m != l { assert SwapOk(s, m); } }
    TlbKept(s, r);
    EvictedFlat(s, l, pid, i, j);
  }

  lemma EvictedFlat(s: State, l: Loc, pid: Pid, i: nat, j: nat)
    requires Tree(s) && HasPage(s, pid, i, j) && l == Walk(s, pid, i, j) && TableOk(s, pid, i) && l.index < ENTRIES
    requires var r := Evicted(s, l);
             && (forall p, k :: DirEntry(r, p, k) == DirEntry(s, p, k))
             && (forall m :: TableEntry(r, m) == if m == l then TableEntry(s, l).(present := false) else TableEntry(s, m))
    ensures SameMemory(s, Evicted(s, l))
  {
    var r := Evicted(s, l);
    assert PageOk(s, pid, i, j);
    forall p, k, m ensures Flat(r, p, k, m) == Flat(s, p, k, m) {
      if HasTable(s, p, k) { assert TableOk(s, p, k); }
      if HasPage(s, p, k, m) { assert PageOk(s, p, k, m); }
    }
  }

  /** A new process with an empty directory. */
  function WithDir(s: State, pid: Pid, f: Frame): State {
    s.(dirs := s.dirs[pid := f], frames := s.frames[f := Dir(BlankEntries())], owner := s.owner[f := DirOf(pid)])
  }

  lemma WithDirEntries(s: State, pid: Pid, f: Frame)
    requires Tree(s) && pid !in s.dirs && f !in s.frames
    ensures var r := WithDir(s, pid, f);
            && (forall p, k :: DirEntry(r, p, k) == DirEntry(s, p, k))
            && (forall m: Loc :: TableEntry(r, m) == TableEntry(s, m))
  {
    var r := WithDir(s, pid, f);
    forall p, k ensures DirEntry(r, p, k) == DirEntry(s, p, k) { assert p in s.dirs ==> DirOk(s, p); }
  }

  lemma WithDirTree(s: State, pid: Pid, f: Frame)
    requires Tree(s) && pid !in s.dirs && f !in s.frames
    ensures Tree(WithDir(s, pid, f))
  {
    var r := WithDir(s, pid, f);
    WithDirEntries(s, pid, f);
    forall p | p in r.dirs ensures DirOk(r, p) { if p != pid { assert DirOk(s, p); } }
    forall p, k | HasTable(r, p, k) ensures TableOk(r, p, k) { assert HasTable(s, p, k) && TableOk(s, p, k); }
    forall p, k, m | HasPage(r, p, k, m) ensures PageOk(r, p, k, m) { assert HasPage(s, p, k, m) && PageOk(s, p, k, m); }
    forall g | g in r.frames ensures Reached(r, g) { if g != f { assert Reached(s, g); } }
    forall m | m in r.swap ensures SwapOk(r, m) { assert SwapOk(s, m); }
  }

  lemma WithDirOk(s: State, pid: Pid, f: Frame)
    requires Inv(s) && pid !in s.dirs && f !in s.frames
    ensures var r := WithDir(s, pid, f);
            && Inv(r)
            && (forall p, k, m :: Flat(r, p, k, m) == Flat(s, p, k, m))
            && (forall k :: !HasTable(r, pid, k))
  {
    var r := WithDir(s, pid, f);
    WithDirEntries(s, pid, f);
    WithDirTree(s, pid, f);
    TlbKept(s, r);
    forall p, k, m ensures Flat(r, p, k, m) == Flat(s, p, k, m) {
      if HasTable(s, p, k) { assert TableOk(s, p, k); }
      if HasPage(s, p, k, m) { assert PageOk(s, p, k, m); }
    }
  }

  // -- Taking a process away


  ghost predicate Owned(s: State, f: Frame, pid: Pid) {
    f in s.owner && s.owner[f].pid == pid
  }

  /** The frames and swap files that are left when those of a process are gone. */
  ghost predicate Emptied(s: State, frames: map<Frame, Content>, swap: map<Loc, seq<bv8>>, pid: Pid) {
    && (forall f :: f in frames <==> f in s.frames && !Owned(s, f, pid))
    && (forall f :: f in frames ==> frames[f] == s.frames[f])
    && (forall l :: l in swap <==> l in s.swap && !Owned(s, l.frame, pid))
    && (forall l :: l in swap ==> swap[l] == s.swap[l])
  }

  /** What is left after all frames, the swap files and the directory of a process are gone. */
  ghost predicate Removed(s: State, r: State, pid: Pid) {
    && r.dirs == s.dirs - {pid}
    && Emptied(s, r.frames, r.swap, pid)
    && r.owner == s.owner
    && r.curr == s.curr
    && r.tlb == if s.curr == pid then map[] else s.tlb
  }

  lemma RemovedEntries(s: State, r: State, pid: Pid)
    requires Tree(s) && Removed(s, r, pid)
    ensures forall p, k :: DirEntry(r, p, k) == if p == pid then Blank else DirEntry(s, p, k)
    ensures forall p, k, j :: p != pid && HasTable(s, p, k) ==> TableEntry(r, Walk(s, p, k, j)) == TableEntry(s, Walk(s, p, k, j))
  {
    forall p, k ensures DirEntry(r, p, k) == if p == pid then Blank else DirEntry(s, p, k) {
      assert p in s.dirs ==> DirOk(s, p);
    }
    forall p, k, j | p != pid && HasTable(s, p, k) ensures TableEntry(r, Walk(s, p, k, j)) == TableEntry(s, Walk(s, p, k, j)) {
      assert TableOk(s, p, k);
    }
  }

  lemma RemovedTree(s: State, r: State, pid: Pid)
    requires Tree(s) && Removed(s, r, pid)
    ensures Tree(r)
  {
    RemovedEntries(s, r, pid);
    forall p | p in r.dirs ensures DirOk(r, p) { assert DirOk(s, p); }
    forall p, k | HasTable(r, p, k) ensures TableOk(r, p, k) { assert HasTable(s, p, k) && TableOk(s, p, k); }
    forall p, k, m | HasPage(r, p, k, m) ensures PageOk(r, p, k, m) {
      assert HasTable(s, p, k) && Walk(r, p, k, m) == Walk(s, p, k, m);
      assert HasPage(s, p, k, m) && PageOk(s, p, k, m);
    }
    forall g | g in r.frames ensures Reached(r, g) {
      assert Reached(s, g);
      if r.owner[g].PageOf? {
        assert Walk(r, r.owner[g].pid, r.owner[g].i, r.owner[g].j) == Walk(s, r.owner[g].pid, r.owner[g].i, r.owner[g].j);
      }
    }
    forall m | m in r.swap ensures SwapOk(r, m) { assert SwapOk(s, m); }
  }

  /** The other processes do not notice. */
  lemma RemovedOk(s: State, r: State, pid: Pid)
    requires Inv(s) && Removed(s, r, pid)
    ensures Inv(r)
    ensures forall p, k, m :: p != pid ==> Flat(r, p, k, m) == Flat(s, p, k, m)
  {
    RemovedEntries(s, r, pid);
    RemovedTree(s, r, pid);
    if s.curr != pid {
      forall vpn | vpn in r.tlb ensures TlbOk(r, vpn) { assert TlbOk(s, vpn); }
    }
    forall p, k, m | p != pid ensures Flat(r, p, k, m) == Flat(s, p, k, m) {
      if HasTable(s, p, k) { assert TableOk(s, p, k); }
      if HasPage(s, p, k, m) { assert PageOk(s, p, k, m); }
    }
  }
}
