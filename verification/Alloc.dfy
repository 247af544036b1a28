/** malloc, free and realloc over an address-ordered block list and a last-in-first-out free list
    that live in the same headers, proved against a map from live blocks to their contents. */
module Alloc {
  import opened Heap
  import opened HeapMoves

  /** What a caller sees of a live block: its size, and the bytes in it that are known. */
  datatype Cell = Cell(size: nat, content: Bytes)

  function Content(bytes: Bytes, p: Addr, n: nat): Bytes {
    map x | x in bytes && p <= x < p + n :: bytes[x]
  }

  function CellAt(hdr: Headers, bytes: Bytes, a: Addr): Cell
    requires a in hdr
  {
    Cell(hdr[a].size, Content(bytes, a + HEADER, hdr[a].size))
  }

  /** The live blocks, by the address of their header: a caller holds that address plus HEADER. */
  function LiveCells(hdr: Headers, bytes: Bytes, blocks: seq<Addr>): map<Addr, Cell> {
    map a | a in blocks && InUse(hdr, a) :: CellAt(hdr, bytes, a)
  }

  predicate InUse(hdr: Headers, a: Addr) {
    a in hdr && !hdr[a].free
  }

  lemma SameLiveCells(h: Headers, b: Bytes, blocks: seq<Addr>, r: Headers, c: Bytes, s: seq<Addr>)
    requires forall a :: (a in blocks && InUse(h, a)) <==> (a in s && InUse(r, a))
    requires forall a :: a in blocks && InUse(h, a) ==> a in r && CellAt(r, c, a) == CellAt(h, b, a)
    ensures LiveCells(r, c, s) == LiveCells(h, b, blocks)
  {
  }

  /** A block keeps its contents when its size and the bytes in its payload stay. */
  lemma CellKept(h: Headers, b: Bytes, r: Headers, c: Bytes, a: Addr)
    requires a in h && a in r && h[a].size == r[a].size
    requires forall x :: InPayload(h, a, x) ==> (x in b <==> x in c) && (x in b ==> b[x] == c[x])
    ensures CellAt(r, c, a) == CellAt(h, b, a)
  {
    var p := a + HEADER;
    forall x | p <= x < p + h[a].size ensures (x in b <==> x in c) && (x in b ==> b[x] == c[x]) {
      assert InPayload(h, a, x);
    }
  }

  /** A header written inside the payload of the block at index i leaves every other block alone. */
  lemma OthersKeepBytes(h: Headers, b: Bytes, blocks: seq<Addr>, lo: Addr, hi: Addr, i: nat, x: Addr, j: nat)
    requires Tiled(h, blocks, lo, hi) && i < |blocks| && j < |blocks| && i != j
    requires blocks[i] in h && blocks[i] + HEADER <= x && x + HEADER <= blocks[i] + HEADER + h[blocks[i]].size
    ensures forall y :: InPayload(h, blocks[j], y) ==> !InHeader(x, y)
    ensures Apart(x, blocks[j])
  {
    if i < j {
      TiledApart(h, blocks, lo, hi, i, j);
      TiledApart(h, blocks, lo, hi, j, j + 1);
    } else {
      TiledApart(h, blocks, lo, hi, j, i);
    }
  }

  lemma GrowReady(h: Headers, blocks: seq<Addr>, lo: Addr, hi: Addr)
    requires Tiled(h, blocks, lo, hi)
    ensures 0 < hi && hi !in blocks && Distinct(blocks)
    ensures forall a :: a in blocks ==> a in h && a != 0
  {
    TiledDistinct(h, blocks, lo, hi);
    TiledUp(h, blocks, lo, hi, 0, |blocks|);
    forall j | 0 <= j < |blocks| ensures blocks[j] < hi {
      TiledApart(h, blocks, lo, hi, j, |blocks|);
    }
  }

  /** Only the pair at index i may be two free neighbours. */
  ghost predicate NeighboursBut(hdr: Headers, blocks: seq<Addr>, i: int) {
    forall j :: 0 <= j < |blocks| - 1 && j != i ==> !BothFree(hdr, blocks, j)
  }

  lemma MergedNeighbours(h: Headers, r: Headers, blocks: seq<Addr>, i: nat)
    requires MergedBlocks(h, r, blocks, i) && h[blocks[i + 1]].free
    requires forall j :: 0 <= j < |blocks| ==> blocks[j] in h
    requires forall j :: 0 <= j < |blocks| - 1 && j != i && j != i + 1 ==> !BothFree(h, blocks, j)
    ensures NeighboursBut(r, Cut(blocks, i + 1), i)
    ensures NeighboursBut(h, blocks, i) ==> NoFreeNeighbours(r, Cut(blocks, i + 1))
  {
    var c := Cut(blocks, i + 1);
    forall j | 0 <= j < |c| - 1 && j != i ensures !BothFree(r, c, j) {
      var k := if j <= i then j else j + 1;
      assert c[j] == blocks[k] && c[j + 1] == blocks[k + 1];
      assert !BothFree(h, blocks, k);
    }
    if NeighboursBut(h, blocks, i) && i < |c| - 1 {
      assert c[i] == blocks[i] && c[i + 1] == blocks[i + 2];
      assert !BothFree(h, blocks, i + 1);
    }
  }

  lemma SplitNeighbours(h: Headers, r: Headers, blocks: seq<Addr>, i: nat, size: nat)
    requires SplitBlock(h, r, blocks, i, size) && h[blocks[i]].free
    requires forall j :: 0 <= j < |blocks| ==> blocks[j] in h
    requires NoFreeNeighbours(h, blocks)
    ensures NeighboursBut(r, Spliced(blocks, i + 1, blocks[i] + HEADER + size), i)
    ensures i + 1 < |blocks| ==> !r[blocks[i + 1]].free
  {
    var s := Spliced(blocks, i + 1, blocks[i] + HEADER + size);
    if i + 1 < |blocks| {
      assert !BothFree(h, blocks, i);
    }
    forall j | 0 <= j < |s| - 1 && j != i ensures !BothFree(r, s, j) {
      if j < i {
        assert s[j] == blocks[j] && s[j + 1] == blocks[j + 1];
        assert !BothFree(h, blocks, j);
      } else if j > i + 1 {
        assert s[j] == blocks[j - 1] && s[j + 1] == blocks[j];
        assert !BothFree(h, blocks, j - 1);
      }
    }
  }

  /** From h to r only the free flag of one block has changed, as far as the block list goes. */
  ghost predicate ReFlagged(h: Headers, r: Headers, blocks: seq<Addr>, node: Addr, flag: bool) {
    forall a :: a in blocks && a in h ==>
      && a in r
      && r[a].ptr == h[a].ptr && r[a].size == h[a].size && r[a].next == h[a].next && r[a].prev == h[a].prev
      && r[a].free == if a == node then flag else h[a].free
  }

  lemma FlagOk(h: Headers, r: Headers, blocks: seq<Addr>, lo: Addr, hi: Addr, node: Addr, flag: bool)
    requires Tiled(h, blocks, lo, hi) && Linked(h, blocks) && ReFlagged(h, r, blocks, node, flag)
    ensures Tiled(r, blocks, lo, hi) && Linked(r, blocks)
  {
    forall j | 0 <= j < |blocks| ensures BlockOk(r, blocks, j, hi) {
      assert BlockOk(h, blocks, j, hi);
    }
    forall j | 0 <= j < |blocks| ensures LinkOk(r, blocks, j) {
      assert LinkOk(h, blocks, j);
    }
  }

  lemma ClaimNeighbours(h: Headers, r: Headers, blocks: seq<Addr>, i: nat)
    requires i < |blocks| && ReFlagged(h, r, blocks, blocks[i], false) && NeighboursBut(h, blocks, i)
    requires forall a :: a in blocks ==> a in h
    ensures NoFreeNeighbours(r, blocks)
  {
    forall j | 0 <= j < |blocks| - 1 ensures !BothFree(r, blocks, j) {
      assert j != i ==> !BothFree(h, blocks, j);
    }
  }

  lemma NextOfRest(h: Headers, r: Headers, blocks: seq<Addr>, i: nat, size: nat)
    requires SplitBlock(h, r, blocks, i, size) && Linked(h, blocks)
    requires forall a :: a in blocks ==> a in h
    requires i + 1 < |blocks| ==> !r[blocks[i + 1]].free
    ensures var x := blocks[i] + HEADER + size; r[x].next == 0 || (r[x].next in r && !r[r[x].next].free)
  {
    assert LinkOk(h, blocks, i);
  }

  lemma GrownNeighbours(h: Headers, r: Headers, blocks: seq<Addr>, hi: Addr, size: nat)
    requires GrownBlocks(h, r, blocks, hi, size) && NoFreeNeighbours(h, blocks)
    requires forall a :: a in blocks ==> a in h
    ensures NoFreeNeighbours(r, blocks + [hi])
  {
    var s := blocks + [hi];
    forall j | 0 <= j < |s| - 1 ensures !BothFree(r, s, j) {
      if j < |blocks| - 1 {
        assert !BothFree(h, blocks, j) && s[j] == blocks[j] && s[j + 1] == blocks[j + 1];
      } else {
        assert s[j + 1] == hi;
      }
    }
  }

  /** A block of at least this size is free. */
  ghost predicate Fits(hdr: Headers, frees: seq<Addr>, size: nat) {
    exists a :: a in frees && a in hdr && hdr[a].size >= size
  }

  /** Block b is the first of the free list that is large enough. */
  ghost predicate FirstFit(hdr: Headers, frees: seq<Addr>, size: nat, b: int) {
    exists j :: 0 <= j < |frees| && frees[j] == b && IsFirstFit(hdr, frees, size, j)
  }

  ghost predicate IsFirstFit(hdr: Headers, frees: seq<Addr>, size: nat, j: nat)
    requires j < |frees|
  {
    && frees[j] in hdr && hdr[frees[j]].size >= size
    && forall i :: 0 <= i < j ==> frees[i] in hdr && hdr[frees[i]].size < size
  }

  lemma NoneFits(hdr: Headers, frees: seq<Addr>, size: nat, j: nat)
    requires FreeLinked(hdr, frees) && j <= |frees| && At(frees, j) == 0
    requires forall i :: 0 <= i < j ==> frees[i] in hdr && hdr[frees[i]].size < size
    ensures !Fits(hdr, frees, size)
  {
    assert j < |frees| ==> FreeLinkOk(hdr, frees, j);
  }

  lemma ReleaseNeighbours(h: Headers, r: Headers, blocks: seq<Addr>, i: nat)
    requires i < |blocks| && ReFlagged(h, r, blocks, blocks[i], true) && NoFreeNeighbours(h, blocks) && Distinct(blocks)
    requires forall a :: a in blocks ==> a in h
    ensures forall j :: 0 <= j < |blocks| - 1 && j != i - 1 && j != i ==> !BothFree(r, blocks, j)
  {
    forall j | 0 <= j < |blocks| - 1 && j != i - 1 && j != i ensures !BothFree(r, blocks, j) {
      assert !BothFree(h, blocks, j);
    }
  }

  /** How large a block a request gets out of a free one. */
  function SizeGiven(have: nat, size: nat): nat {
    if have > size + 64 + HEADER then size else have
  }

  // -- What the operations do to the live blocks

  /** One more live block, the old ones as they were. */
  ghost predicate Allocates(v: map<Addr, Cell>, w: map<Addr, Cell>, b: Addr, size: nat) {
    && b !in v
    && w.Keys == v.Keys + {b}
    && (forall a :: a in v ==> w[a] == v[a])
    && w[b].size == size
  }

  /** A new block for a request of this size, at most 64 bytes and a header too large. */
  ghost predicate Serves(v: map<Addr, Cell>, w: map<Addr, Cell>, b: Addr, size: nat) {
    && b !in v
    && w.Keys == v.Keys + {b}
    && (forall a :: a in v ==> w[a] == v[a])
    && size <= w[b].size <= size + 64 + HEADER
  }

  lemma AllocatesServes(v: map<Addr, Cell>, w: map<Addr, Cell>, b: Addr, given: nat, size: nat)
    requires Allocates(v, w, b, given) && size <= given <= size + 64 + HEADER
    ensures Serves(v, w, b, size)
  {
  }

  lemma ClaimView(h: Headers, r: Headers, bytes: Bytes, blocks: seq<Addr>, node: Addr)
    requires ReFlagged(h, r, blocks, node, false) && node in blocks && node in h && h[node].free
    requires forall a :: a in blocks ==> a in h
    ensures Allocates(LiveCells(h, bytes, blocks), LiveCells(r, bytes, blocks), node, h[node].size)
  {
  }

  lemma FreedView(h: Headers, r: Headers, bytes: Bytes, blocks: seq<Addr>, node: Addr)
    requires ReFlagged(h, r, blocks, node, true) && node in blocks && node in h
    requires forall a :: a in blocks ==> a in h
    ensures LiveCells(r, bytes, blocks) == LiveCells(h, bytes, blocks) - {node}
  {
    var v, w := LiveCells(r, bytes, blocks), LiveCells(h, bytes, blocks) - {node};
    assert v.Keys == w.Keys;
    forall a | a in v ensures v[a] == w[a] {
      assert r[a].size == h[a].size;
    }
  }

  lemma MergedView(h: Headers, r: Headers, bytes: Bytes, blocks: seq<Addr>, i: nat)
    requires MergedBlocks(h, r, blocks, i) && Distinct(blocks)
    requires forall a :: a in blocks ==> a in h
    requires h[blocks[i]].free && h[blocks[i + 1]].free
    ensures LiveCells(r, bytes, Cut(blocks, i + 1)) == LiveCells(h, bytes, blocks)
  {
    CutMembers(blocks, i + 1);
    forall a | a in blocks && a != blocks[i + 1]
      ensures a in r && r[a].free == h[a].free && (!h[a].free ==> r[a].size == h[a].size)
    {
      var j :| 0 <= j < |blocks| && blocks[j] == a;
    }
    SameLiveCells(h, bytes, blocks, r, bytes, Cut(blocks, i + 1));
  }

  lemma GrownView(h: Headers, r: Headers, bytes: Bytes, blocks: seq<Addr>, hi: Addr, size: nat)
    requires GrownBlocks(h, r, blocks, hi, size) && hi !in blocks
    requires forall a :: a in blocks ==> a in h
    ensures Allocates(LiveCells(h, bytes, blocks), LiveCells(r, bytes, blocks + [hi]), hi, size)
  {
    forall a | a in blocks ensures a in r && r[a].free == h[a].free && r[a].size == h[a].size {
      var j :| 0 <= j < |blocks| && blocks[j] == a;
    }
  }

  /** A header written into a free block touches no live payload. */
  lemma SplitView(h: Headers, r: Headers, bytes: Bytes, c: Bytes, blocks: seq<Addr>, s: seq<Addr>,
                  lo: Addr, hi: Addr, i: nat, size: nat)
    requires SplitBlock(h, r, blocks, i, size) && Tiled(h, blocks, lo, hi) && h[blocks[i]].free
    requires c == Clobbered(bytes, blocks[i] + HEADER + size) && s == Spliced(blocks, i + 1, blocks[i] + HEADER + size)
    ensures LiveCells(r, c, s) == LiveCells(h, bytes, blocks)
  {
    TiledDistinct(h, blocks, lo, hi);
    assert forall a :: a in s <==> a == blocks[i] + HEADER + size || a in blocks;
    forall a | a in blocks
      ensures a in r && r[a].free == h[a].free && (!h[a].free ==> CellAt(r, c, a) == CellAt(h, bytes, a))
    {
      var j :| 0 <= j < |blocks| && blocks[j] == a;
      if j != i {
        SplitCell(h, r, bytes, blocks, lo, hi, i, size, j);
      }
    }
    SameLiveCells(h, bytes, blocks, r, c, s);
  }

  lemma SplitCell(h: Headers, r: Headers, bytes: Bytes, blocks: seq<Addr>, lo: Addr, hi: Addr, i: nat, size: nat, j: nat)
    requires SplitBlock(h, r, blocks, i, size) && Tiled(h, blocks, lo, hi) && j < |blocks| && j != i && blocks[j] in h
    ensures blocks[j] in r
    ensures CellAt(r, Clobbered(bytes, blocks[i] + HEADER + size), blocks[j]) == CellAt(h, bytes, blocks[j])
  {
    var x := blocks[i] + HEADER + size;
    OthersKeepBytes(h, bytes, blocks, lo, hi, i, x, j);
    CellKept(h, bytes, r, Clobbered(bytes, x), blocks[j]);
  }

  /** From one cell to another, the bytes at the n addresses from p on are now those of data, and unknown
      where data has none. */
  ghost predicate Patched(was: Cell, is': Cell, p: Addr, n: nat, data: Bytes) {
    is'.size == was.size && Replaced(was.content, is'.content, p, n, data)
  }

  /** The bytes of b after those at n addresses from p on have been replaced. */
  ghost predicate Replaced(b: Bytes, c: Bytes, p: Addr, n: nat, data: Bytes) {
    && (forall x :: x in c <==> if p <= x < p + n then x in data else x in b)
    && (forall x :: x in c ==> c[x] == if p <= x < p + n then data[x] else b[x])
  }

  /** One live block has been patched, and no other touched. */
  ghost predicate Pokes(v: map<Addr, Cell>, w: map<Addr, Cell>, b: Addr, p: Addr, n: nat, data: Bytes) {
    && b in v && w.Keys == v.Keys
    && (forall a :: a in v && a != b ==> w[a] == v[a])
    && Patched(v[b], w[b], p, n, data)
  }

  function Plus(p: Addr, k: nat): Addr { p + k }

  /** The known ones of n bytes at src, as bytes at dst. */
  function CopyOf(bytes: Bytes, src: Addr, dst: Addr, n: nat): Bytes {
    if n == 0 then map[]
    else
      var rest := CopyOf(bytes, src, dst, n - 1);
      if Plus(src, n - 1) in bytes then rest[Plus(dst, n - 1) := bytes[Plus(src, n - 1)]] else rest
  }

  lemma {:induction false} CopyOfAt(bytes: Bytes, src: Addr, dst: Addr, n: nat, k: nat)
    ensures Plus(dst, k) in CopyOf(bytes, src, dst, n) <==> k < n && Plus(src, k) in bytes
    ensures k < n && Plus(src, k) in bytes ==> CopyOf(bytes, src, dst, n)[Plus(dst, k)] == bytes[Plus(src, k)]
    ensures forall x :: x in CopyOf(bytes, src, dst, n) ==> dst <= x < dst + n
    decreases n
  {
    if n > 0 {
      CopyOfAt(bytes, src, dst, n - 1, k);
    }
  }

  /** The address in block c that corresponds to x in block b. */
  function Moved(b: Addr, c: Addr, x: Addr): int {
    x - b + c
  }

  /** Block b has become block c, of at least the wanted size, with all known bytes of b in front; every
      other live block is as it was. */
  ghost predicate Resized(v: map<Addr, Cell>, w: map<Addr, Cell>, b: Addr, c: Addr, size: nat) {
    && b in v && c in w
    && w.Keys == v.Keys - {b} + {c}
    && (c in v ==> c == b)
    && (forall a :: a in v && a != b ==> w[a] == v[a])
    && w[c].size >= size
    && (forall x {:trigger Moved(b, c, x)} :: x in v[b].content ==>
          Moved(b, c, x) in w[c].content && w[c].content[Moved(b, c, x)] == v[b].content[x])
  }

  /** No header of a block lies in the payload of one. */
  lemma PokeSpares(h: Headers, blocks: seq<Addr>, lo: Addr, hi: Addr, i: nat, p: Addr, n: nat)
    requires Tiled(h, blocks, lo, hi) && i < |blocks| && blocks[i] in h
    requires blocks[i] + HEADER <= p && p + n <= blocks[i] + HEADER + h[blocks[i]].size
    ensures forall a :: a in blocks ==> !(a < p + n && p < a + HEADER)
    ensures p + n <= hi
  {
    TiledApart(h, blocks, lo, hi, i, |blocks|);
    forall j | 0 <= j < |blocks| ensures !(blocks[j] < p + n && p < blocks[j] + HEADER) {
      if j < i {
        TiledApart(h, blocks, lo, hi, j, i);
      } else if i < j {
        TiledApart(h, blocks, lo, hi, i, j);
      }
    }
  }

  /** The heap is a matter of the headers of its blocks. */
  lemma BlocksKeep(h: Headers, r: Headers, blocks: seq<Addr>, frees: seq<Addr>, lo: Addr, hi: Addr)
    requires Tiled(h, blocks, lo, hi) && Linked(h, blocks) && FreeLinked(h, frees) && FreesAreFree(h, blocks, frees)
    requires NoFreeNeighbours(h, blocks)
    requires forall a :: a in blocks && a in h ==> a in r && r[a] == h[a]
    ensures Tiled(r, blocks, lo, hi) && Linked(r, blocks) && FreeLinked(r, frees) && FreesAreFree(r, blocks, frees)
    ensures NoFreeNeighbours(r, blocks)
  {
    GrowReady(h, blocks, lo, hi);
    forall j | 0 <= j < |blocks| ensures BlockOk(r, blocks, j, hi) {
      assert BlockOk(h, blocks, j, hi);
    }
    forall j | 0 <= j < |blocks| ensures LinkOk(r, blocks, j) {
      assert LinkOk(h, blocks, j);
    }
    forall j | 0 <= j < |blocks| - 1 ensures !BothFree(r, blocks, j) {
      assert !BothFree(h, blocks, j);
    }
    FreeLinkedKeep(h, r, frees);
  }

  /** Memory after n payload bytes from p on have been written: headers they overlap are gone. */
  function PokedHeaders(h: Headers, p: Addr, n: nat): Headers {
    h - set a | a in h && a < p + n && p < a + HEADER
  }

  function PokedBytes(b: Bytes, p: Addr, n: nat, data: Bytes): Bytes {
    (b - set x | x in b && p <= x < p + n) + data
  }

  lemma PokedOk(h: Headers, b: Bytes, blocks: seq<Addr>, hi: Addr, p: Addr, n: nat, data: Bytes)
    requires Separate(h, b) && p + n <= hi
    requires (forall a :: a in h ==> a + HEADER <= hi) && (forall x :: x in b ==> x < hi)
    requires forall x :: x in data ==> p <= x < p + n
    requires forall a :: a in blocks ==> a in h && !(a < p + n && p < a + HEADER)
    ensures var r, c := PokedHeaders(h, p, n), PokedBytes(b, p, n, data);
            && Separate(r, c) && Replaced(b, c, p, n, data)
            && (forall a :: a in r ==> a + HEADER <= hi) && (forall x :: x in c ==> x < hi)
            && (forall a :: a in blocks ==> a in r && r[a] == h[a])
  {
    var r, c := PokedHeaders(h, p, n), PokedBytes(b, p, n, data);
    forall a, x | a in r && x in c ensures !InHeader(a, x) {
      assert a in h;
    }
  }

  lemma PokeCell(h: Headers, b: Bytes, r: Headers, c: Bytes, a: Addr, p: Addr, n: nat, data: Bytes)
    requires a in h && a in r && r[a] == h[a] && Replaced(b, c, p, n, data)
    requires a + HEADER <= p && p + n <= a + HEADER + h[a].size
    ensures Patched(CellAt(h, b, a), CellAt(r, c, a), p, n, data)
  {
  }

  lemma PokeOther(h: Headers, b: Bytes, r: Headers, c: Bytes, blocks: seq<Addr>, lo: Addr, hi: Addr,
                  i: nat, j: nat, p: Addr, n: nat, data: Bytes)
    requires Tiled(h, blocks, lo, hi) && i < |blocks| && j < |blocks| && i != j && blocks[i] in h && blocks[j] in h
    requires blocks[i] + HEADER <= p && p + n <= blocks[i] + HEADER + h[blocks[i]].size
    requires blocks[j] in r && r[blocks[j]] == h[blocks[j]] && Replaced(b, c, p, n, data)
    ensures CellAt(r, c, blocks[j]) == CellAt(h, b, blocks[j])
  {
    BlocksDisjoint(h, blocks, lo, hi, j, i);
    assert forall x :: p <= x < p + n ==> InPayload(h, blocks[i], x);
    CellKept(h, b, r, c, blocks[j]);
  }

  lemma PokeView(h: Headers, b: Bytes, r: Headers, c: Bytes, blocks: seq<Addr>, lo: Addr, hi: Addr,
                 i: nat, p: Addr, n: nat, data: Bytes)
    requires Tiled(h, blocks, lo, hi) && i < |blocks| && InUse(h, blocks[i])
    requires blocks[i] + HEADER <= p && p + n <= blocks[i] + HEADER + h[blocks[i]].size
    requires forall a :: a in blocks ==> a in h && a in r && r[a] == h[a]
    requires Replaced(b, c, p, n, data)
    ensures Pokes(LiveCells(h, b, blocks), LiveCells(r, c, blocks), blocks[i], p, n, data)
  {
    var v, w := LiveCells(h, b, blocks), LiveCells(r, c, blocks);
    forall a | a in blocks && a != blocks[i] ensures CellAt(r, c, a) == CellAt(h, b, a) {
      var j :| 0 <= j < |blocks| && blocks[j] == a;
      PokeOther(h, b, r, c, blocks, lo, hi, i, j, p, n, data);
    }
    PokeCell(h, b, r, c, blocks[i], p, n, data);
    PokesIs(h, b, r, c, blocks, blocks[i], p, n, data);
  }

  lemma PokesIs(h: Headers, b: Bytes, r: Headers, c: Bytes, blocks: seq<Addr>, node: Addr, p: Addr, n: nat, data: Bytes)
    requires node in blocks && InUse(h, node)
    requires forall a :: a in blocks ==> a in h && a in r && r[a] == h[a]
    requires forall a :: a in blocks && a != node ==> CellAt(r, c, a) == CellAt(h, b, a)
    requires Patched(CellAt(h, b, node), CellAt(r, c, node), p, n, data)
    ensures Pokes(LiveCells(h, b, blocks), LiveCells(r, c, blocks), node, p, n, data)
  {
    var v, w := LiveCells(h, b, blocks), LiveCells(r, c, blocks);
    assert v[node] == CellAt(h, b, node) && w[node] == CellAt(r, c, node);
    forall a | a in v && a != node ensures w[a] == v[a] {
      assert v[a] == CellAt(h, b, a) && w[a] == CellAt(r, c, a);
    }
    assert w.Keys == v.Keys;
  }

  /** A write into a live payload leaves the heap a heap, and changes that block's contents alone. */
  lemma PokeAll(h: Headers, b: Bytes, blocks: seq<Addr>, frees: seq<Addr>, lo: Addr, hi: Addr,
                i: nat, p: Addr, n: nat, data: Bytes)
    requires Tiled(h, blocks, lo, hi) && Linked(h, blocks) && FreeLinked(h, frees) && FreesAreFree(h, blocks, frees)
    requires NoFreeNeighbours(h, blocks) && Separate(h, b)
    requires (forall a :: a in h ==> a + HEADER <= hi) && (forall x :: x in b ==> x < hi)
    requires i < |blocks| && InUse(h, blocks[i])
    requires blocks[i] + HEADER <= p && p + n <= blocks[i] + HEADER + h[blocks[i]].size
    requires forall x :: x in data ==> p <= x < p + n
    ensures var r, c := PokedHeaders(h, p, n), PokedBytes(b, p, n, data);
            && Separate(r, c)
            && (forall a :: a in r ==> a + HEADER <= hi) && (forall x :: x in c ==> x < hi)
            && Tiled(r, blocks, lo, hi) && Linked(r, blocks) && FreeLinked(r, frees) && FreesAreFree(r, blocks, frees)
            && NoFreeNeighbours(r, blocks)
            && Pokes(LiveCells(h, b, blocks), LiveCells(r, c, blocks), blocks[i], p, n, data)
  {
    GrowReady(h, blocks, lo, hi);
    PokeSpares(h, blocks, lo, hi, i, p, n);
    PokedOk(h, b, blocks, hi, p, n, data);
    BlocksKeep(h, PokedHeaders(h, p, n), blocks, frees, lo, hi);
    PokeView(h, b, PokedHeaders(h, p, n), PokedBytes(b, p, n, data), blocks, lo, hi, i, p, n, data);
  }

  lemma StretchedLists(h: Headers, r: Headers, blocks: seq<Addr>, frees: seq<Addr>, last: Addr, size: nat)
    requires last in h && r == h[last := h[last].(size := size)]
    requires FreeLinked(h, frees) && FreesAreFree(h, blocks, frees) && NoFreeNeighbours(h, blocks)
    requires forall a :: a in blocks ==> a in h
    ensures FreeLinked(r, frees) && FreesAreFree(r, blocks, frees) && NoFreeNeighbours(r, blocks)
  {
    FreeLinkedKeep(h, r, frees);
    forall j | 0 <= j < |blocks| - 1 ensures !BothFree(r, blocks, j) {
      assert !BothFree(h, blocks, j);
    }
  }

  /** A longer last block, together with a higher break, still makes a heap. */
  lemma StretchAll(h: Headers, bytes: Bytes, blocks: seq<Addr>, frees: seq<Addr>, lo: Addr, hi: Addr,
                   last: Addr, size: nat, end: Addr)
    requires Tiled(h, blocks, lo, hi) && Linked(h, blocks) && FreeLinked(h, frees) && FreesAreFree(h, blocks, frees)
    requires NoFreeNeighbours(h, blocks) && last in blocks && last == At(blocks, |blocks| - 1)
    requires InUse(h, last) && h[last].size < size && end == hi + size - h[last].size
    ensures var r := h[last := h[last].(size := size)];
            && Tiled(r, blocks, lo, end) && Linked(r, blocks) && FreeLinked(r, frees) && FreesAreFree(r, blocks, frees)
            && NoFreeNeighbours(r, blocks)
            && Resized(LiveCells(h, bytes, blocks), LiveCells(r, bytes, blocks), last, last, size)
  {
    var r := h[last := h[last].(size := size)];
    GrowReady(h, blocks, lo, hi);
    StretchedLists(h, r, blocks, frees, last, size);
    StretchedOk(h, blocks, lo, hi, size, end);
    StretchedView(h, r, bytes, blocks, last, size);
  }

  lemma StretchedView(h: Headers, r: Headers, bytes: Bytes, blocks: seq<Addr>, last: Addr, size: nat)
    requires last in blocks && InUse(h, last) && h[last].size < size && r == h[last := h[last].(size := size)]
    requires forall a :: a in blocks ==> a in h
    ensures Resized(LiveCells(h, bytes, blocks), LiveCells(r, bytes, blocks), last, last, size)
  {
    var v, w := LiveCells(h, bytes, blocks), LiveCells(r, bytes, blocks);
    StretchedCell(bytes, last + HEADER, h[last].size, size);
    assert v[last] == CellAt(h, bytes, last) && w[last] == CellAt(r, bytes, last);
    assert w.Keys == v.Keys - {last} + {last};
  }

  lemma StretchedCell(bytes: Bytes, q: Addr, n: nat, m: nat)
    requires n <= m
    ensures forall x :: x in Content(bytes, q, n) ==>
              x in Content(bytes, q, m) && Content(bytes, q, m)[x] == Content(bytes, q, n)[x]
  {
  }

  lemma CopiedContent(bytes: Bytes, b: Addr, c: Addr, n: nat, content: Bytes, data: Bytes)
    requires data == CopyOf(bytes, b + HEADER, c + HEADER, n) && content == Content(bytes, b + HEADER, n)
    ensures forall x :: x in data ==> c + HEADER <= x < c + HEADER + n
    ensures forall a {:trigger Moved(b, c, a)} :: a in content ==>
              && c + HEADER <= Moved(b, c, a) < c + HEADER + n
              && Moved(b, c, a) in data && data[Moved(b, c, a)] == content[a]
  {
    var p, q := b + HEADER, c + HEADER;
    CopyOfAt(bytes, p, q, n, 0);
    forall a | a in content ensures Moved(b, c, a) in data && data[Moved(b, c, a)] == content[a] {
      CopyOfAt(bytes, p, q, n, a - p);
      assert Plus(p, a - p) == a && Plus(q, a - p) == Moved(b, c, a);
    }
  }

  /** Block c is new, of at least the wanted size, with all known bytes of block b in front. */
  ghost predicate Copied(u: map<Addr, Cell>, w: map<Addr, Cell>, b: Addr, c: Addr, size: nat) {
    && b in u && c !in u && c in w
    && w.Keys == u.Keys + {c}
    && (forall a :: a in u ==> w[a] == u[a])
    && w[c].size >= size
    && (forall x {:trigger Moved(b, c, x)} :: x in u[b].content ==>
          Moved(b, c, x) in w[c].content && w[c].content[Moved(b, c, x)] == u[b].content[x])
  }

  /** Allocating and copying. */
  lemma CopiedView(u: map<Addr, Cell>, v: map<Addr, Cell>, w: map<Addr, Cell>, b: Addr, c: Addr, size: nat, data: Bytes)
    requires b in u && u[b].size < size
    requires forall a {:trigger Moved(b, c, a)} :: a in u[b].content ==>
               && c + HEADER <= Moved(b, c, a) < c + HEADER + u[b].size
               && Moved(b, c, a) in data && data[Moved(b, c, a)] == u[b].content[a]
    ensures Serves(u, v, c, size) && Pokes(v, w, c, c + HEADER, u[b].size, data) ==> Copied(u, w, b, c, size)
  {
  }

  lemma StaysResized(v: map<Addr, Cell>, b: Addr, size: nat)
    ensures b in v && v[b].size >= size ==> Resized(v, v, b, b, size)
  {
    if b in v {
      assert v.Keys - {b} + {b} == v.Keys;
    }
  }

  /** Freeing the old block after that amounts to a resize. */
  lemma MovedView(u: map<Addr, Cell>, w: map<Addr, Cell>, x: map<Addr, Cell>, b: Addr, c: Addr, size: nat)
    ensures Copied(u, w, b, c, size) && x == w - {b} ==> Resized(u, x, b, c, size)
  {
  }

  class Allocator {
    const start: Addr
    var brk: Addr
    var head: Addr
    var tail: Addr
    var emhead: Addr
    var hdr: Headers
    var bytes: Bytes
    ghost var blocks: seq<Addr>
    ghost var frees: seq<Addr>

    constructor (start: Addr)
      requires start > 0
      ensures Valid() && View() == map[] && this.start == start && brk == start
    {
      this.start, brk := start, start;
      head, tail, emhead := 0, 0, 0;
      hdr, bytes := map[], map[];
      blocks, frees := [], [];
    }

    ghost predicate Memory()
      reads this
    {
      && Separate(hdr, bytes)
      && (forall a :: a in hdr ==> a + HEADER <= brk)
      && (forall x :: x in bytes ==> x < brk)
    }

    /** The heap is tiled, and both lists run through it as they should. */
    ghost predicate Lists()
      reads this
    {
      && Memory()
      && Tiled(hdr, blocks, start, brk)
      && Linked(hdr, blocks)
      && FreeLinked(hdr, frees)
      && FreesAreFree(hdr, blocks, frees)
      && head == At(blocks, 0)
      && tail == At(blocks, |blocks| - 1)
      && emhead == At(frees, 0)
    }

    ghost predicate Valid()
      reads this
    {
      Lists() && NoFreeNeighbours(hdr, blocks)
    }

    ghost function View(): map<Addr, Cell>
      reads this
    {
      LiveCells(hdr, bytes, blocks)
    }

    method WriteHeader(a: Addr, h: Header)
      requires Memory() && a + HEADER <= brk
      modifies this`hdr, this`bytes
      ensures Memory()
      ensures hdr == Overwritten(old(hdr), a, h) && bytes == Clobbered(old(bytes), a)
    {
      OverwrittenSeparate(hdr, bytes, a, h);
      hdr, bytes := Overwritten(hdr, a, h), Clobbered(bytes, a);
    }

    /** Writing over a header that is there destroys nothing. */
    method UpdateHeader(a: Addr, h: Header)
      requires Memory() && a in hdr
      modifies this`hdr, this`bytes
      ensures Memory() && hdr == old(hdr)[a := h] && bytes == old(bytes)
    {
      RewriteHeader(hdr, bytes, a, h);
      WriteHeader(a, h);
    }

    /** Takes a node out of the free list. */
    method RemoveNode(node: Addr)
      requires Memory() && FreeLinked(hdr, frees) && emhead == At(frees, 0) && node in frees
      modifies this`hdr, this`bytes, this`emhead, this`frees
      ensures Memory() && FreeLinked(hdr, frees) && emhead == At(frees, 0)
      ensures SameBlocks(old(hdr), hdr) && bytes == old(bytes)
      ensures forall a :: a in frees <==> a in old(frees) && a != node
      ensures exists k :: 0 <= k < |old(frees)| && old(frees)[k] == node && frees == Cut(old(frees), k)
    {
      ghost var k :| 0 <= k < |frees| && frees[k] == node;
      assert FreeLinkOk(hdr, frees, k);
      if k > 0 { assert FreeLinkOk(hdr, frees, k - 1); }
      if k + 1 < |frees| { assert FreeLinkOk(hdr, frees, k + 1); }
      var prevfree, nextfree := hdr[node].prevfree, hdr[node].nextfree;
      if node == emhead {
        emhead := nextfree;
      }
      if prevfree != 0 {
        UpdateHeader(prevfree, hdr[prevfree].(nextfree := nextfree));
      }
      if nextfree != 0 {
        UpdateHeader(nextfree, hdr[nextfree].(prevfree := prevfree));
      }
      assert hdr == Unlinked(old(hdr), node);
      UnlinkedSame(old(hdr), node);
      UnlinkedFreeLinked(old(hdr), frees, k);
      CutMembers(frees, k);
      frees := Cut(frees, k);
    }

    /** Makes a node the first of the free list. */
    method PushFree(node: Addr)
      requires Memory() && FreeLinked(hdr, frees) && emhead == At(frees, 0)
      requires node in hdr && node != 0 && node !in frees
      modifies this`hdr, this`bytes, this`emhead, this`frees
      ensures Memory() && FreeLinked(hdr, frees) && emhead == At(frees, 0)
      ensures SameBlocks(old(hdr), hdr) && bytes == old(bytes)
      ensures frees == [node] + old(frees)
    {
      if frees != [] { assert FreeLinkOk(hdr, frees, 0); }
      UpdateHeader(node, hdr[node].(nextfree := emhead, prevfree := 0));
      if emhead != 0 {
        UpdateHeader(emhead, hdr[emhead].(prevfree := node));
      }
      assert hdr == Pushed(old(hdr), emhead, node);
      PushedSame(old(hdr), emhead, node);
      PushedFreeLinked(old(hdr), frees, node);
      emhead := node;
      frees := [node] + frees;
    }

    /** The part of a merge that changes the block list. */
    method AbsorbNext(node: Addr, ghost i: nat) returns (nextnode: Addr)
      requires Memory() && Tiled(hdr, blocks, start, brk) && Linked(hdr, blocks) && FreeLinked(hdr, frees)
      requires i + 1 < |blocks| && blocks[i] == node
      modifies this`hdr, this`bytes, this`tail
      ensures Memory() && bytes == old(bytes) && nextnode == blocks[i + 1]
      ensures node in old(hdr) && old(hdr)[node].next in old(hdr) && hdr == Merged(old(hdr), node)
      ensures FreeLinked(hdr, frees)
      ensures tail == if old(tail) == nextnode then node else old(tail)
    {
      MergedIs(hdr, blocks, frees, start, brk, i);
      nextnode := hdr[node].next;
      if nextnode == tail {
        tail := node;
      }
      var after := hdr[nextnode].next;
      UpdateHeader(node, hdr[node].(size := hdr[node].size + hdr[nextnode].size + HEADER, next := after));
      if after != 0 {
        UpdateHeader(after, hdr[after].(prev := node));
      }
      UpdateHeader(nextnode, hdr[nextnode].(size := 0, free := false, next := 0, prev := 0, ptr := 0));
    }

    /** These are the blocks from now on. */
    ghost method ListBlocks(s: seq<Addr>)
      requires Memory() && Tiled(hdr, s, start, brk) && Linked(hdr, s)
      requires FreeLinked(hdr, frees) && FreesAreFree(hdr, s, frees)
      requires head == At(s, 0) && tail == At(s, |s| - 1) && emhead == At(frees, 0)
      modifies this`blocks
      ensures Lists() && blocks == s
    {
      blocks := s;
    }

    /** Merges the block at index i with its successor, which is free. */
    method BlockMerge(node: Addr, ghost i: nat)
      requires Lists() && i + 1 < |blocks| && blocks[i] == node && blocks[i + 1] in frees
      modifies this
      ensures Lists() && bytes == old(bytes) && brk == old(brk)
      ensures blocks == Cut(old(blocks), i + 1)
      ensures MergedBlocks(old(hdr), hdr, old(blocks), i)
      ensures forall a :: a in frees <==> a in old(frees) && a != old(blocks)[i + 1]
    {
      ghost var h, b := hdr, blocks;
      var nextnode := AbsorbNext(node, i);
      RemoveNode(nextnode);
      MergeOk(h, hdr, b, old(frees), frees, start, brk, i);
      ListBlocks(Cut(b, i + 1));
    }

    /** The part of a split that changes the block list. */
    method CutOff(node: Addr, size: nat) returns (rest: Addr)
      requires Memory() && node in hdr && hdr[node].size > size + HEADER
      requires var x := node + HEADER + size;
               && x + HEADER <= brk && Apart(x, node)
               && (hdr[node].next != 0 ==> hdr[node].next in hdr && Apart(x, hdr[node].next))
      modifies this`hdr, this`bytes, this`tail
      ensures Memory() && rest == node + HEADER + size
      ensures hdr == Split(old(hdr), node, size) && bytes == Clobbered(old(bytes), rest)
      ensures tail == if old(tail) == node then rest else old(tail)
    {
      rest := node + HEADER + size;
      var after := hdr[node].next;
      WriteHeader(rest, Header(rest + HEADER, hdr[node].size - size - HEADER, true, after, node, 0, 0));
      LinkIn(node, size, rest, after);
      if tail == node {
        tail := rest;
      }
    }

    method LinkIn(node: Addr, size: nat, rest: Addr, after: Addr)
      requires Memory() && node in hdr && (after != 0 ==> after in hdr)
      modifies this`hdr, this`bytes
      ensures Memory() && hdr == Relinked(old(hdr), node, size, rest, after) && bytes == old(bytes)
    {
      UpdateHeader(node, hdr[node].(size := size, next := rest));
      if after != 0 {
        UpdateHeader(after, hdr[after].(prev := rest));
      }
    }

    /** Splits the block at index i, if it is large enough, after its first size bytes. */
    method BlockSplit(node: Addr, size: nat, ghost i: nat) returns (rest: Addr)
      requires Lists() && i < |blocks| && blocks[i] == node && node in hdr
      modifies this
      ensures Lists() && brk == old(brk)
      ensures old(hdr[node].size) <= size + HEADER ==> rest == 0 && unchanged(this)
      ensures old(hdr[node].size) > size + HEADER ==>
                && rest == node + HEADER + size
                && blocks == Spliced(old(blocks), i + 1, rest)
                && frees == [rest] + old(frees)
                && SplitBlock(old(hdr), hdr, old(blocks), i, size)
                && bytes == Clobbered(old(bytes), rest)
    {
      if hdr[node].size <= size + HEADER {
        return 0;
      }
      rest := SplitLarge(node, size, i);
    }

    method SplitLarge(node: Addr, size: nat, ghost i: nat) returns (rest: Addr)
      requires Lists() && i < |blocks| && blocks[i] == node && node in hdr && hdr[node].size > size + HEADER
      modifies this
      ensures Lists() && brk == old(brk)
      ensures rest == node + HEADER + size
      ensures blocks == Spliced(old(blocks), i + 1, rest)
      ensures frees == [rest] + old(frees)
      ensures SplitBlock(old(hdr), hdr, old(blocks), i, size)
      ensures bytes == Clobbered(old(bytes), rest)
    {
      ghost var h, b := hdr, blocks;
      rest := EnterRest(node, size, i);
      SplitOk(h, hdr, b, old(frees), start, brk, i, size);
      ListBlocks(Spliced(b, i + 1, rest));
      SplitBlockIs(h, hdr, b, old(frees), start, brk, i, size);
    }

    method EnterRest(node: Addr, size: nat, ghost i: nat) returns (rest: Addr)
      requires Lists() && i < |blocks| && blocks[i] == node && node in hdr && hdr[node].size > size + HEADER
      modifies this`hdr, this`bytes, this`tail, this`emhead, this`frees
      ensures Memory() && FreeLinked(hdr, frees) && emhead == At(frees, 0)
      ensures rest == node + HEADER + size
      ensures frees == [rest] + old(frees)
      ensures SameBlocks(Split(old(hdr), node, size), hdr)
      ensures bytes == Clobbered(old(bytes), rest)
      ensures tail == if old(tail) == node then rest else old(tail)
    {
      SplitReady(hdr, blocks, frees, start, brk, i, size);
      rest := CutOff(node, size);
      PushFree(rest);
    }

    /** A header at the break, where there is nothing yet. */
    method HeaderAtBreak(size: nat) returns (node: Addr)
      requires Memory() && brk > 0
      modifies this`hdr, this`bytes, this`brk
      ensures Memory() && node == old(brk) && brk == node + HEADER + size && bytes == old(bytes) && node !in old(hdr)
      ensures hdr == old(hdr)[node := Header(node + HEADER, size, false, 0, tail, 0, 0)]
    {
      node := brk;
      brk := brk + HEADER;
      var ptr := brk;
      brk := brk + size;
      assert forall b :: b in hdr ==> Apart(node, b);
      assert node !in hdr;
      WriteHeader(node, Header(ptr, size, false, 0, tail, 0, 0));
      assert bytes == old(bytes);
    }

    /** Lets the heap grow by a new block, which is not free. */
    method AddNodeToTail(size: nat) returns (node: Addr)
      requires Lists()
      modifies this
      ensures Lists() && bytes == old(bytes) && frees == old(frees)
      ensures node == old(brk) && brk == old(brk) + HEADER + size && blocks == old(blocks) + [node]
      ensures node !in old(blocks) && GrownBlocks(old(hdr), hdr, old(blocks), node, size)
    {
      ghost var h, b := hdr, blocks;
      GrowReady(h, b, start, brk);
      node := AppendHeader(size);
      GrownOk(h, hdr, b, start, node, size, brk);
      GrownFrees(h, hdr, b, frees, node, size);
      assert forall j :: 0 <= j < |frees| && FreeLinkOk(h, frees, j) ==> FreeLinkOk(hdr, frees, j);
      ListBlocks(b + [node]);
    }

    /** A header at the break, linked in behind the last block. */
    method AppendHeader(size: nat) returns (node: Addr)
      requires Memory() && brk > 0 && (tail != 0 ==> tail in hdr) && (head == 0 ==> tail == 0)
      requires head == At(blocks, 0) && tail == At(blocks, |blocks| - 1) && Distinct(blocks)
      requires forall a :: a in blocks ==> a in hdr && a != 0
      modifies this`hdr, this`bytes, this`brk, this`head, this`tail
      ensures Memory() && bytes == old(bytes) && node == old(brk) && brk == old(brk) + HEADER + size
      ensures node !in old(hdr) && tail == node && head == At(blocks + [node], 0)
      ensures GrownBlocks(old(hdr), hdr, blocks, node, size)
      ensures forall a :: a in old(hdr) ==> a in hdr && hdr[a].nextfree == old(hdr)[a].nextfree
                                            && hdr[a].prevfree == old(hdr)[a].prevfree
    {
      assert blocks != [] ==> blocks[0] in blocks && blocks[|blocks| - 1] in blocks;
      node := HeaderAtBreak(size);
      if tail != 0 {
        UpdateHeader(tail, hdr[tail].(next := node));
      } else if head == 0 {
        head := node;
      }
      tail := node;
    }

    /** Takes a free block out of the free list and marks it as used. */
    method Claim(node: Addr)
      requires Lists() && node in frees
      modifies this
      ensures Lists() && bytes == old(bytes) && brk == old(brk) && blocks == old(blocks)
      ensures ReFlagged(old(hdr), hdr, blocks, node, false)
    {
      ghost var h := hdr;
      GrowReady(h, blocks, start, brk);
      RemoveNode(node);
      FreeLinkedKeep(hdr, hdr[node := hdr[node].(free := false)], frees);
      UpdateHeader(node, hdr[node].(free := false));
      FlagOk(h, hdr, blocks, start, brk, node, false);
    }

    /** Gives back what is left of a free block when that is worth a block of its own. */
    method Trim(chosen: Addr, size: nat, ghost i: nat)
      requires Valid() && i < |blocks| && blocks[i] == chosen
      requires chosen in frees && chosen in hdr && hdr[chosen].size > size + 64 + HEADER
      modifies this
      ensures Lists() && brk == old(brk) && View() == old(View()) && chosen in frees
      ensures i < |blocks| && blocks[i] == chosen && NeighboursBut(hdr, blocks, i)
      ensures chosen in hdr && hdr[chosen].size == size
    {
      ghost var h, b := hdr, blocks;
      GrowReady(h, b, start, brk);
      ghost var k :| 0 <= k < |frees| && frees[k] == chosen;
      var rest := BlockSplit(chosen, size, i);
      assert frees[k + 1] == chosen;
      SplitView(h, hdr, old(bytes), bytes, b, blocks, start, brk, i, size);
      SplitNeighbours(h, hdr, b, i, size);
      // The successor of a free block is never free, so the merge that follows in the
      // source is never made.
      NextOfRest(h, hdr, b, i, size);
      assert hdr[rest].next == 0 || !hdr[hdr[rest].next].free;
    }

    /** Uses a free block. */
    method TakeBlock(chosen: Addr, size: nat)
      requires Valid() && chosen in frees && chosen in hdr && hdr[chosen].size >= size
      modifies this
      ensures Valid() && brk == old(brk)
      ensures chosen in hdr && hdr[chosen].ptr == chosen + HEADER && 0 < chosen
      ensures Allocates(old(View()), View(), chosen, SizeGiven(old(hdr[chosen].size), size))
    {
      ghost var i :| 0 <= i < |blocks| && blocks[i] == chosen;
      if hdr[chosen].size - size > 64 + HEADER {
        Trim(chosen, size, i);
      }
      ghost var h := hdr;
      GrowReady(h, blocks, start, brk);
      Claim(chosen);
      ClaimView(h, hdr, bytes, blocks, chosen);
      ClaimNeighbours(h, hdr, blocks, i);
      assert BlockOk(hdr, blocks, i, brk);
    }

    method Malloc(size: nat) returns (ptr: Addr)
      requires Valid()
      modifies this
      ensures Valid() && ptr > HEADER
      ensures Serves(old(View()), View(), ptr - HEADER, size)
      ensures brk == old(brk) + if old(Fits(hdr, frees, size)) then 0 else HEADER + size
      ensures old(Fits(hdr, frees, size)) ==> old(FirstFit(hdr, frees, size, ptr - HEADER))
      ensures View()[ptr - HEADER].size ==
                if old(Fits(hdr, frees, size)) && old(hdr)[ptr - HEADER].size <= size + 64 + HEADER
                then old(hdr)[ptr - HEADER].size else size
    {
      var cur := emhead;
      ghost var j := 0;
      while cur != 0
        invariant j <= |frees| && cur == At(frees, j)
        invariant forall i :: 0 <= i < j ==> frees[i] in hdr && hdr[frees[i]].size < size
        decreases |frees| - j
      {
        assert FreeLinkOk(hdr, frees, j);
        if hdr[cur].size >= size {
          assert Fits(hdr, frees, size) && IsFirstFit(hdr, frees, size, j);
          TakeBlock(cur, size);
          AllocatesServes(old(View()), View(), cur, SizeGiven(old(hdr)[cur].size, size), size);
          ptr := hdr[cur].ptr;
          assert ptr - HEADER == cur;
          return;
        }
        cur := hdr[cur].nextfree;
        j := j + 1;
      }
      NoneFits(hdr, frees, size, j);
      ghost var h, b := hdr, blocks;
      GrowReady(h, b, start, brk);
      var node := AddNodeToTail(size);
      GrownView(h, hdr, bytes, b, node, size);
      AllocatesServes(old(View()), View(), node, size, size);
      GrownNeighbours(h, hdr, b, node, size);
      ptr := hdr[node].ptr;
      assert ptr - HEADER == node;
    }

    /** Marks a used block as free and puts it first in the free list. */
    method Release(node: Addr, ghost i: nat)
      requires Lists() && i < |blocks| && blocks[i] == node && node in hdr && !hdr[node].free
      modifies this
      ensures Lists() && bytes == old(bytes) && brk == old(brk) && blocks == old(blocks)
      ensures ReFlagged(old(hdr), hdr, blocks, node, true) && node in hdr && node in frees
    {
      ghost var h := hdr;
      GrowReady(h, blocks, start, brk);
      FreeLinkedKeep(hdr, hdr[node := hdr[node].(free := true)], frees);
      UpdateHeader(node, hdr[node].(free := true));
      PushFree(node);
      FlagOk(h, hdr, blocks, start, brk, node, true);
    }

    /** Merges a free block with the block before it, if that is free too. */
    method MergeBack(node: Addr, ghost i: nat) returns (merged: Addr, ghost k: nat)
      requires Lists() && i < |blocks| && blocks[i] == node && node in hdr && hdr[node].free
      requires forall j :: 0 <= j < |blocks| - 1 && j != i - 1 && j != i ==> !BothFree(hdr, blocks, j)
      modifies this
      ensures Lists() && brk == old(brk) && View() == old(View())
      ensures k < |blocks| && blocks[k] == merged && merged in hdr && hdr[merged].free && NeighboursBut(hdr, blocks, k)
      ensures hdr[merged].next == old(hdr[node].next)
    {
      ghost var h, b := hdr, blocks;
      GrowReady(h, b, start, brk);
      assert LinkOk(h, b, i);
      var prevnode := hdr[node].prev;
      merged, k := node, i;
      if i > 0 { assert LinkOk(h, b, i - 1); }
      if prevnode != 0 && hdr[prevnode].free {
        BlockMerge(prevnode, i - 1);
        MergedView(h, hdr, bytes, b, i - 1);
        MergedNeighbours(h, hdr, b, i - 1);
        merged, k := prevnode, i - 1;
      } else {
        assert i > 0 ==> !BothFree(h, b, i - 1);
      }
    }

    /** Merges a free block with the block behind it, if that is free too. */
    method MergeForward(node: Addr, ghost i: nat)
      requires Lists() && i < |blocks| && blocks[i] == node && node in hdr && hdr[node].free
      requires NeighboursBut(hdr, blocks, i)
      modifies this
      ensures Valid() && brk == old(brk) && View() == old(View())
    {
      ghost var h, b := hdr, blocks;
      GrowReady(h, b, start, brk);
      assert LinkOk(h, b, i);
      var nextnode := hdr[node].next;
      if i + 1 < |b| { assert LinkOk(h, b, i + 1); }
      if nextnode != 0 && hdr[nextnode].free {
        BlockMerge(node, i);
        MergedView(h, hdr, bytes, b, i);
        MergedNeighbours(h, hdr, b, i);
      } else {
        assert i + 1 < |b| ==> !BothFree(h, b, i);
      }
    }

    /** Frees a live block. The null pointer, and a pointer whose header a merge has blanked, are
        ignored. */
    method Free(ptr: Addr)
      requires Valid()
      requires ptr != 0 ==> ptr >= HEADER && ptr - HEADER in hdr
      requires ptr != 0 && hdr[ptr - HEADER].ptr == ptr ==> ptr - HEADER in View()
      modifies this
      ensures Valid() && brk == old(brk)
      ensures View() == if ptr != 0 && old(hdr[ptr - HEADER].ptr) == ptr then old(View()) - {ptr - HEADER} else old(View())
    {
      if ptr == 0 {
        return;
      }
      var node := ptr - HEADER;
      if hdr[node].ptr != ptr {
        return;
      }
      ghost var i :| 0 <= i < |blocks| && blocks[i] == node;
      ghost var h := hdr;
      GrowReady(h, blocks, start, brk);
      Release(node, i);
      FreedView(h, hdr, bytes, blocks, node);
      ReleaseNeighbours(h, hdr, blocks, i);
      var merged;
      ghost var k;
      merged, k := MergeBack(node, i);
      MergeForward(merged, k);
    }

    /** Stores the bytes of data, and unknown ones elsewhere, at n addresses from p on inside a live
        block: what a caller does with a block it holds, and what memcpy does. */
    method Poke(b: Addr, p: Addr, n: nat, data: Bytes)
      requires Valid() && b in View() && b + HEADER <= p && p + n <= b + HEADER + View()[b].size
      requires forall x :: x in data ==> p <= x < p + n
      modifies this`hdr, this`bytes
      ensures Valid() && Pokes(old(View()), View(), b, p, n, data)
    {
      ghost var i :| 0 <= i < |blocks| && blocks[i] == b;
      PokeAll(hdr, bytes, blocks, frees, start, brk, i, p, n, data);
      Install(PokedHeaders(hdr, p, n), PokedBytes(bytes, p, n, data));
    }

    method Install(h: Headers, b: Bytes)
      requires Separate(h, b) && (forall a :: a in h ==> a + HEADER <= brk) && (forall x :: x in b ==> x < brk)
      requires Tiled(h, blocks, start, brk) && Linked(h, blocks) && FreeLinked(h, frees)
      requires FreesAreFree(h, blocks, frees) && NoFreeNeighbours(h, blocks)
      requires head == At(blocks, 0) && tail == At(blocks, |blocks| - 1) && emhead == At(frees, 0)
      modifies this`hdr, this`bytes
      ensures Valid() && hdr == h && bytes == b
    {
      hdr, bytes := h, b;
    }

    /** memcpy of the old contents into the new block is made with the size of the old block. The
        source then frees its header where the old pointer is meant; the meant call is made here. */
    method Realloc(ptr: Addr, size: nat) returns (r: Addr)
      requires Valid()
      requires ptr != 0 ==> ptr >= HEADER && ptr - HEADER in View()
      modifies this
      ensures Valid()
      ensures ptr == 0 && size == 0 ==> r == 0 && View() == old(View())
      ensures ptr == 0 && size != 0 ==> r > HEADER && Serves(old(View()), View(), r - HEADER, size)
      ensures ptr != 0 && size == 0 ==> r == 0 && View() == old(View()) - {ptr - HEADER}
      ensures ptr != 0 && size != 0 ==> r > HEADER && Resized(old(View()), View(), ptr - HEADER, r - HEADER, size)
      ensures ptr != 0 && size != 0 ==>
                var have := old(View()[ptr - HEADER].size);
                if have >= size then r == ptr && View() == old(View()) && brk == old(brk)
                else if ptr - HEADER == old(tail) then
                  r == ptr && View()[ptr - HEADER].size == size && brk == old(brk) + (size - have)
                else r != ptr
    {
      if ptr == 0 && size != 0 {
        r := Malloc(size);
        return;
      } else if ptr != 0 && size == 0 {
        LivePtr(ptr);
        Free(ptr);
        return 0;
      } else if ptr == 0 && size == 0 {
        return 0;
      }
      r := ReallocLive(ptr, size);
    }

    method ReallocLive(ptr: Addr, size: nat) returns (r: Addr)
      requires Valid() && ptr >= HEADER && ptr - HEADER in View()
      modifies this
      ensures Valid() && r > HEADER && Resized(old(View()), View(), ptr - HEADER, r - HEADER, size)
      ensures var have := old(View()[ptr - HEADER].size);
              if have >= size then r == ptr && View() == old(View()) && brk == old(brk)
              else if ptr - HEADER == old(tail) then
                r == ptr && View()[ptr - HEADER].size == size && brk == old(brk) + (size - have)
              else r != ptr
    {
      LivePtr(ptr);
      var c := Resize(ptr - HEADER, size);
      r := c + HEADER;
    }

    /** The block that a live block becomes: itself when it is large enough or can grow in place. */
    method Resize(node: Addr, size: nat) returns (c: Addr)
      requires Valid() && node > 0 && node in View()
      modifies this
      ensures Valid() && c > 0 && Resized(old(View()), View(), node, c, size)
      ensures old(View()[node].size) >= size ==> c == node && View() == old(View()) && brk == old(brk)
      ensures old(View()[node].size) < size && node == old(tail) ==>
                c == node && View()[node].size == size && brk == old(brk) + (size - old(View()[node].size))
      ensures old(View()[node].size) < size && node != old(tail) ==> c != node
    {
      if hdr[node].size < size {
        if node == tail {
          Stretch(size);
          return node;
        }
        c := Move(node, size);
      } else {
        StaysResized(View(), node, size);
        c := node;
      }
    }

    lemma LivePtr(ptr: Addr)
      requires Valid() && ptr >= HEADER && ptr - HEADER in View()
      ensures hdr[ptr - HEADER].ptr == ptr && ptr > HEADER
    {
      GrowReady(hdr, blocks, start, brk);
      var i :| 0 <= i < |blocks| && blocks[i] == ptr - HEADER;
      assert BlockOk(hdr, blocks, i, brk);
    }

    /** Lets the last block, which is live, grow with the heap. */
    method Stretch(size: nat)
      requires Valid() && tail in View() && hdr[tail].size < size
      modifies this`hdr, this`bytes, this`brk
      ensures Valid() && Resized(old(View()), View(), tail, tail, size)
      ensures View()[tail].size == size && brk == old(brk) + (size - old(hdr[tail].size))
    {
      StretchAll(hdr, bytes, blocks, frees, start, brk, tail, size, brk + size - hdr[tail].size);
      EnlargeTail(size);
    }

    /** The break and the size of the last block move up together. */
    method EnlargeTail(size: nat)
      requires Valid() && tail in hdr && hdr[tail].size < size
      requires var r, end := hdr[tail := hdr[tail].(size := size)], brk + size - hdr[tail].size;
               && Tiled(r, blocks, start, end) && Linked(r, blocks) && FreeLinked(r, frees)
               && FreesAreFree(r, blocks, frees) && NoFreeNeighbours(r, blocks)
      modifies this`hdr, this`bytes, this`brk
      ensures Valid() && hdr == old(hdr)[tail := old(hdr)[tail].(size := size)] && bytes == old(bytes)
      ensures brk == old(brk) + (size - old(hdr[tail].size))
    {
      brk := brk + size - hdr[tail].size;
      UpdateHeader(tail, hdr[tail].(size := size));
    }

    /** Makes a larger copy of a live block elsewhere. */
    method Copy(node: Addr, size: nat) returns (c: Addr)
      requires Valid() && node in View() && View()[node].size < size
      modifies this
      ensures Valid() && c > 0 && Copied(old(View()), View(), node, c, size)
    {
      ghost var u := View();
      var r := Malloc(size);
      ghost var v := View();
      c := r - HEADER;
      var n := hdr[node].size;
      var data := CopyOf(bytes, node + HEADER, c + HEADER, n);
      assert v[node] == CellAt(hdr, bytes, node);
      CopiedContent(bytes, node, c, n, u[node].content, data);
      Poke(c, c + HEADER, n, data);
      CopiedView(u, v, View(), node, c, size, data);
    }

    /** Moves the contents of a live block to a larger one elsewhere. */
    method Move(node: Addr, size: nat) returns (c: Addr)
      requires Valid() && node in View() && View()[node].size < size
      modifies this
      ensures Valid() && c > 0 && c != node && Resized(old(View()), View(), node, c, size)
    {
      ghost var u := View();
      c := Copy(node, size);
      ghost var w := View();
      FreeLive(node);
      MovedView(u, w, View(), node, c, size);
    }

    method FreeLive(node: Addr)
      requires Valid() && node in View()
      modifies this
      ensures Valid() && View() == old(View()) - {node}
    {
      LivePtr(node + HEADER);
      Free(node + HEADER);
    }
  }
}
