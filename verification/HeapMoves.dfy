/** What the four relinking operations of the allocator do to the headers, as functions or relations
    between headers, and why each of them leaves a heap behind. */
module HeapMoves {
  import opened Heap

  // -- Leaving and entering the free list

  /** The headers after a node has been taken out of the free list. */
  function Unlinked(hdr: Headers, node: Addr): Headers
    requires node in hdr
  {
    var p, n := hdr[node].prevfree, hdr[node].nextfree;
    var h := if p != 0 && p in hdr then hdr[p := hdr[p].(nextfree := n)] else hdr;
    if n != 0 && n in h then h[n := h[n].(prevfree := p)] else h
  }

  /** The headers after a node has become the first of the free list. */
  function Pushed(hdr: Headers, first: Addr, node: Addr): Headers
    requires node in hdr
  {
    var h := hdr[node := hdr[node].(nextfree := first, prevfree := 0)];
    if first != 0 && first in h then h[first := h[first].(prevfree := node)] else h
  }

  /** The same blocks: only the free-list fields may differ. */
  ghost predicate SameBlocks(h: Headers, r: Headers) {
    && h.Keys == r.Keys
    && forall a :: a in h ==> r[a] == h[a].(nextfree := r[a].nextfree, prevfree := r[a].prevfree)
  }

  lemma UnlinkedSame(hdr: Headers, node: Addr)
    requires node in hdr
    ensures SameBlocks(hdr, Unlinked(hdr, node))
  {
  }

  lemma PushedSame(hdr: Headers, first: Addr, node: Addr)
    requires node in hdr
    ensures SameBlocks(hdr, Pushed(hdr, first, node))
  {
  }

  lemma FreeLinkedKeep(h: Headers, r: Headers, frees: seq<Addr>)
    requires FreeLinked(h, frees)
    requires forall a :: a in frees && a in h ==> a in r && r[a].nextfree == h[a].nextfree && r[a].prevfree == h[a].prevfree
    ensures FreeLinked(r, frees)
  {
    forall j | 0 <= j < |frees| ensures FreeLinkOk(r, frees, j) {
      assert FreeLinkOk(h, frees, j);
    }
  }

  /** Taking out the node at index k leaves the free list without that node. */
  lemma UnlinkedFreeLinked(hdr: Headers, frees: seq<Addr>, k: nat)
    requires FreeLinked(hdr, frees) && k < |frees| && frees[k] in hdr
    ensures FreeLinked(Unlinked(hdr, frees[k]), Cut(frees, k))
  {
    var r := Unlinked(hdr, frees[k]);
    var c := Cut(frees, k);
    CutMembers(frees, k);
    assert FreeLinkOk(hdr, frees, k);
    if k > 0 {
      assert FreeLinkOk(hdr, frees, k - 1);
    }
    if k + 1 < |frees| {
      assert FreeLinkOk(hdr, frees, k + 1);
    }
    forall j | 0 <= j < |c| ensures FreeLinkOk(r, c, j) {
      var i := if j < k then j else j + 1;
      assert FreeLinkOk(hdr, frees, i) && c[j] == frees[i];
      assert At(c, j + 1) == (if j + 1 == k then At(frees, k + 1) else At(frees, i + 1));
      assert At(c, j - 1) == (if j == k then At(frees, k - 1) else At(frees, i - 1));
      assert frees[i] == At(frees, k - 1) <==> i == k - 1;
      assert frees[i] == At(frees, k + 1) <==> i == k + 1;
    }
  }

  lemma PushedFreeLinked(hdr: Headers, frees: seq<Addr>, node: Addr)
    requires FreeLinked(hdr, frees) && node in hdr && node != 0 && node !in frees
    ensures FreeLinked(Pushed(hdr, At(frees, 0), node), [node] + frees)
  {
    var r := Pushed(hdr, At(frees, 0), node);
    var f := [node] + frees;
    if frees != [] {
      assert FreeLinkOk(hdr, frees, 0);
    }
    forall j | 0 <= j < |f| ensures FreeLinkOk(r, f, j) {
      if j > 0 {
        assert FreeLinkOk(hdr, frees, j - 1) && f[j] == frees[j - 1];
        assert At(f, j + 1) == At(frees, j);
        assert frees[j - 1] == At(frees, 0) <==> j == 1;
      } else {
        assert At(f, 1) == At(frees, 0);
      }
    }
    forall i, j | 0 <= i < j < |f| ensures f[i] != f[j] {
      assert f[j] == frees[j - 1];
    }
  }

  // -- Splitting a block

  /** From h to r the block at index i has given up all but its first size bytes to a new free
      block right behind them. */
  ghost predicate SplitBlock(h: Headers, r: Headers, blocks: seq<Addr>, i: nat, size: nat) {
    && i < |blocks| && blocks[i] in h
    && h[blocks[i]].size > size + HEADER
    && var rest := blocks[i] + HEADER + size;
    && (forall j :: 0 <= j < |blocks| && blocks[j] in h ==>
          && blocks[j] in r
          && r[blocks[j]].ptr == h[blocks[j]].ptr
          && r[blocks[j]].free == h[blocks[j]].free
          && r[blocks[j]].size == (if j == i then size else h[blocks[j]].size)
          && r[blocks[j]].next == (if j == i then rest else h[blocks[j]].next)
          && r[blocks[j]].prev == (if j == i + 1 then rest else h[blocks[j]].prev))
    && rest in r
    && r[rest].ptr == rest + HEADER
    && r[rest].size == h[blocks[i]].size - size - HEADER
    && r[rest].free
    && r[rest].next == h[blocks[i]].next
    && r[rest].prev == blocks[i]
  }

  lemma SplitTiled(h: Headers, r: Headers, blocks: seq<Addr>, i: nat, size: nat, lo: Addr, hi: Addr)
    requires SplitBlock(h, r, blocks, i, size) && Tiled(h, blocks, lo, hi)
    ensures Tiled(r, Spliced(blocks, i + 1, blocks[i] + HEADER + size), lo, hi)
  {
    var rest := blocks[i] + HEADER + size;
    var s := Spliced(blocks, i + 1, rest);
    assert BlockOk(h, blocks, i, hi);
    forall j | 0 <= j < |s| ensures BlockOk(r, s, j, hi) {
      if j <= i {
        assert BlockOk(h, blocks, j, hi) && s[j] == blocks[j];
        assert Bound(s, j + 1, hi) == if j == i then rest else Bound(blocks, j + 1, hi);
      } else if j == i + 1 {
        assert s[j] == rest && Bound(s, j + 1, hi) == Bound(blocks, i + 1, hi);
      } else {
        assert BlockOk(h, blocks, j - 1, hi) && s[j] == blocks[j - 1];
        assert Bound(s, j + 1, hi) == Bound(blocks, j, hi);
      }
    }
    assert Bound(s, 0, hi) == Bound(blocks, 0, hi);
  }

  lemma SplitLinked(h: Headers, r: Headers, blocks: seq<Addr>, i: nat, size: nat)
    requires SplitBlock(h, r, blocks, i, size) && Linked(h, blocks)
    ensures Linked(r, Spliced(blocks, i + 1, blocks[i] + HEADER + size))
  {
    var rest := blocks[i] + HEADER + size;
    var s := Spliced(blocks, i + 1, rest);
    assert LinkOk(h, blocks, i);
    forall j | 0 <= j < |s| ensures LinkOk(r, s, j) {
      if j <= i {
        assert LinkOk(h, blocks, j) && s[j] == blocks[j];
        assert At(s, j + 1) == if j == i then rest else At(blocks, j + 1);
        assert At(s, j - 1) == At(blocks, j - 1);
      } else if j == i + 1 {
        assert s[j] == rest && At(s, j + 1) == At(blocks, i + 1) && At(s, j - 1) == blocks[i];
      } else {
        assert LinkOk(h, blocks, j - 1) && s[j] == blocks[j - 1];
        assert At(s, j + 1) == At(blocks, j);
        assert At(s, j - 1) == if j == i + 2 then rest else At(blocks, j - 2);
      }
    }
  }

  /** The headers after a block has been split, with the new one not yet in the free list. */
  function Split(h: Headers, node: Addr, size: nat): Headers
    requires node in h && h[node].size > size + HEADER
  {
    var x := node + HEADER + size;
    var fill := Header(x + HEADER, h[node].size - size - HEADER, true, h[node].next, node, 0, 0);
    Relinked(Overwritten(h, x, fill), node, size, x, h[node].next)
  }

  /** The headers after x has been linked in between node and the block after it. */
  function Relinked(h: Headers, node: Addr, size: nat, x: Addr, after: Addr): Headers {
    var r := if node in h then h[node := h[node].(size := size, next := x)] else h;
    if after != 0 && after in r then r[after := r[after].(prev := x)] else r
  }

  /** The place of the new header is clear of all blocks. */
  lemma SplitApart(h: Headers, blocks: seq<Addr>, lo: Addr, hi: Addr, i: nat, size: nat)
    requires Tiled(h, blocks, lo, hi) && i < |blocks| && blocks[i] in h && h[blocks[i]].size > size + HEADER
    ensures forall a :: a in blocks ==> a in h && Apart(blocks[i] + HEADER + size, a)
    ensures blocks[i] + HEADER + size + HEADER <= hi
  {
    TiledDistinct(h, blocks, lo, hi);
    TiledApart(h, blocks, lo, hi, i, |blocks|);
    forall j | 0 <= j < |blocks| ensures Apart(blocks[i] + HEADER + size, blocks[j]) {
      if i < j {
        TiledApart(h, blocks, lo, hi, i, j);
      } else if j < i {
        TiledApart(h, blocks, lo, hi, j, i);
      }
    }
  }

  lemma SplitIs(h: Headers, blocks: seq<Addr>, frees: seq<Addr>, lo: Addr, hi: Addr, i: nat, size: nat)
    requires Tiled(h, blocks, lo, hi) && Linked(h, blocks) && FreeLinked(h, frees) && FreesAreFree(h, blocks, frees)
    requires i < |blocks| && blocks[i] in h && h[blocks[i]].size > size + HEADER
    ensures h[blocks[i]].next == At(blocks, i + 1) && (i + 1 < |blocks| ==> blocks[i + 1] in h && blocks[i + 1] != 0)
    ensures SplitBlock(h, Split(h, blocks[i], size), blocks, i, size)
    ensures FreeLinked(Split(h, blocks[i], size), frees)
  {
    TiledDistinct(h, blocks, lo, hi);
    SplitApart(h, blocks, lo, hi, i, size);
    assert LinkOk(h, blocks, i);
    if i + 1 < |blocks| {
      assert LinkOk(h, blocks, i + 1);
    }
    var r := Split(h, blocks[i], size);
    forall j | 0 <= j < |frees| ensures FreeLinkOk(r, frees, j) {
      assert FreeLinkOk(h, frees, j) && frees[j] in blocks;
    }
  }

  /** What has to hold for the new header to be written and entered. */
  lemma SplitReady(h: Headers, blocks: seq<Addr>, frees: seq<Addr>, lo: Addr, hi: Addr, i: nat, size: nat)
    requires Tiled(h, blocks, lo, hi) && Linked(h, blocks) && FreeLinked(h, frees) && FreesAreFree(h, blocks, frees)
    requires i < |blocks| && blocks[i] in h && h[blocks[i]].size > size + HEADER
    ensures var x, next := blocks[i] + HEADER + size, h[blocks[i]].next;
            && x + HEADER <= hi && Apart(x, blocks[i]) && x !in frees
            && (next != 0 ==> next in h && Apart(x, next))
            && x in Split(h, blocks[i], size)
    ensures FreeLinked(Split(h, blocks[i], size), frees)
  {
    SplitIs(h, blocks, frees, lo, hi, i, size);
    SplitApart(h, blocks, lo, hi, i, size);
  }

  /** What a split does to the blocks, whatever happens to the free list. */
  lemma SplitBlockIs(h: Headers, r: Headers, blocks: seq<Addr>, frees: seq<Addr>, lo: Addr, hi: Addr, i: nat, size: nat)
    requires Tiled(h, blocks, lo, hi) && Linked(h, blocks) && FreeLinked(h, frees) && FreesAreFree(h, blocks, frees)
    requires i < |blocks| && blocks[i] in h && h[blocks[i]].size > size + HEADER
    requires SameBlocks(Split(h, blocks[i], size), r)
    ensures SplitBlock(h, r, blocks, i, size)
  {
    SplitIs(h, blocks, frees, lo, hi, i, size);
  }

  /** Everything a split leaves behind, once the new block has also entered the free list. */
  lemma SplitOk(h: Headers, r: Headers, blocks: seq<Addr>, frees: seq<Addr>, lo: Addr, hi: Addr, i: nat, size: nat)
    requires Tiled(h, blocks, lo, hi) && Linked(h, blocks) && FreeLinked(h, frees) && FreesAreFree(h, blocks, frees)
    requires i < |blocks| && blocks[i] in h && h[blocks[i]].size > size + HEADER
    requires SameBlocks(Split(h, blocks[i], size), r)
    ensures var x := blocks[i] + HEADER + size;
            var s := Spliced(blocks, i + 1, x);
            && Tiled(r, s, lo, hi) && Linked(r, s) && FreesAreFree(r, s, [x] + frees)
            && At(s, 0) == At(blocks, 0)
            && At(s, |s| - 1) == if blocks[i] == At(blocks, |blocks| - 1) then x else At(blocks, |blocks| - 1)
  {
    var x := blocks[i] + HEADER + size;
    SplitBlockIs(h, r, blocks, frees, lo, hi, i, size);
    SplitTiled(h, r, blocks, i, size, lo, hi);
    SplitLinked(h, r, blocks, i, size);
    TiledDistinct(h, blocks, lo, hi);
    SplitFrees(h, r, blocks, frees, i, size);
  }

  lemma SplitFrees(h: Headers, r: Headers, blocks: seq<Addr>, frees: seq<Addr>, i: nat, size: nat)
    requires SplitBlock(h, r, blocks, i, size) && FreesAreFree(h, blocks, frees)
    requires forall a :: a in blocks ==> a in h
    ensures var x := blocks[i] + HEADER + size; FreesAreFree(r, Spliced(blocks, i + 1, x), [x] + frees)
  {
    var x := blocks[i] + HEADER + size;
    var s := Spliced(blocks, i + 1, x);
    assert forall a :: a in s <==> a == x || a in blocks;
    forall a | a in blocks ensures a in r && r[a].free == h[a].free {
      var j :| 0 <= j < |blocks| && blocks[j] == a;
    }
  }

  // -- Merging a block with its successor

  /** From h to r the block at index i has taken in the one behind it. */
  ghost predicate MergedBlocks(h: Headers, r: Headers, blocks: seq<Addr>, i: nat) {
    && i + 1 < |blocks| && blocks[i] in h && blocks[i + 1] in h
    && forall j :: 0 <= j < |blocks| && j != i + 1 && blocks[j] in h ==>
         && blocks[j] in r
         && r[blocks[j]].ptr == h[blocks[j]].ptr
         && r[blocks[j]].free == h[blocks[j]].free
         && r[blocks[j]].size == (if j == i then h[blocks[i]].size + h[blocks[i + 1]].size + HEADER else h[blocks[j]].size)
         && r[blocks[j]].next == (if j == i then h[blocks[i + 1]].next else h[blocks[j]].next)
         && r[blocks[j]].prev == (if j == i + 2 then blocks[i] else h[blocks[j]].prev)
  }

  /** The headers after a block has taken in its successor, whose own header is blanked. */
  function Merged(h: Headers, node: Addr): Headers
    requires node in h && h[node].next in h
  {
    var x := h[node].next;
    var after := h[x].next;
    var h1 := h[node := h[node].(size := h[node].size + h[x].size + HEADER, next := after)];
    var h2 := if after != 0 && after in h1 then h1[after := h1[after].(prev := node)] else h1;
    h2[x := h2[x].(size := 0, free := false, next := 0, prev := 0, ptr := 0)]
  }

  lemma MergedIs(h: Headers, blocks: seq<Addr>, frees: seq<Addr>, lo: Addr, hi: Addr, i: nat)
    requires Tiled(h, blocks, lo, hi) && Linked(h, blocks) && FreeLinked(h, frees) && i + 1 < |blocks|
    ensures blocks[i] in h && h[blocks[i]].next == blocks[i + 1] && blocks[i + 1] in h
    ensures h[blocks[i + 1]].next == At(blocks, i + 2) && (i + 2 < |blocks| ==> blocks[i + 2] in h && blocks[i + 2] != 0)
    ensures Merged(h, blocks[i]).Keys == h.Keys
    ensures MergedBlocks(h, Merged(h, blocks[i]), blocks, i)
    ensures FreeLinked(Merged(h, blocks[i]), frees)
  {
    TiledDistinct(h, blocks, lo, hi);
    assert LinkOk(h, blocks, i) && LinkOk(h, blocks, i + 1) && BlockOk(h, blocks, i, hi) && BlockOk(h, blocks, i + 1, hi);
    if i + 2 < |blocks| {
      assert LinkOk(h, blocks, i + 2);
    }
    var r := Merged(h, blocks[i]);
    forall j | 0 <= j < |frees| ensures FreeLinkOk(r, frees, j) {
      assert FreeLinkOk(h, frees, j);
    }
  }

  lemma MergedSame(h: Headers, m: Headers, r: Headers, blocks: seq<Addr>, i: nat)
    requires MergedBlocks(h, m, blocks, i) && SameBlocks(m, r)
    ensures MergedBlocks(h, r, blocks, i)
  {
  }

  lemma MergedFrees(h: Headers, r: Headers, blocks: seq<Addr>, i: nat, frees: seq<Addr>, rest: seq<Addr>)
    requires MergedBlocks(h, r, blocks, i) && Distinct(blocks)
    requires forall a :: a in blocks ==> a in h
    requires FreesAreFree(h, blocks, frees)
    requires forall a :: a in rest <==> a in frees && a != blocks[i + 1]
    ensures FreesAreFree(r, Cut(blocks, i + 1), rest)
  {
    CutMembers(blocks, i + 1);
    forall a ensures a in rest <==> a in Cut(blocks, i + 1) && a in r && r[a].free {
      if a in Cut(blocks, i + 1) {
        var j :| 0 <= j < |blocks| && blocks[j] == a;
        assert j != i + 1;
      }
    }
  }

  /** The ends of the list after block k > 0 has gone. */
  lemma CutEnds(blocks: seq<Addr>, k: nat)
    requires 0 < k < |blocks| && Distinct(blocks)
    ensures At(Cut(blocks, k), 0) == At(blocks, 0)
    ensures At(Cut(blocks, k), |blocks| - 2) ==
              if blocks[k] == At(blocks, |blocks| - 1) then blocks[k - 1] else At(blocks, |blocks| - 1)
  {
  }

  lemma MergedTiled(h: Headers, r: Headers, blocks: seq<Addr>, i: nat, lo: Addr, hi: Addr)
    requires MergedBlocks(h, r, blocks, i) && Tiled(h, blocks, lo, hi)
    ensures Tiled(r, Cut(blocks, i + 1), lo, hi)
  {
    var c := Cut(blocks, i + 1);
    assert BlockOk(h, blocks, i, hi) && BlockOk(h, blocks, i + 1, hi);
    forall j | 0 <= j < |c| ensures BlockOk(r, c, j, hi) {
      var k := if j <= i then j else j + 1;
      assert BlockOk(h, blocks, k, hi) && c[j] == blocks[k];
      assert Bound(c, j + 1, hi) == if j == i then Bound(blocks, i + 2, hi) else Bound(blocks, k + 1, hi);
    }
    assert Bound(c, 0, hi) == Bound(blocks, 0, hi);
  }

  lemma MergedLinked(h: Headers, r: Headers, blocks: seq<Addr>, i: nat)
    requires MergedBlocks(h, r, blocks, i) && Linked(h, blocks)
    ensures Linked(r, Cut(blocks, i + 1))
  {
    var c := Cut(blocks, i + 1);
    assert LinkOk(h, blocks, i) && LinkOk(h, blocks, i + 1);
    forall j | 0 <= j < |c| ensures LinkOk(r, c, j) {
      var k := if j <= i then j else j + 1;
      assert LinkOk(h, blocks, k) && c[j] == blocks[k];
      assert At(c, j + 1) == if j == i then At(blocks, i + 2) else At(blocks, k + 1);
      assert At(c, j - 1) == if j == i + 1 then At(blocks, i) else At(blocks, k - 1);
    }
  }

  /** Everything a merge leaves behind, once the successor has also left the free list. */
  lemma MergeOk(h: Headers, r: Headers, blocks: seq<Addr>, frees: seq<Addr>, rest: seq<Addr>, lo: Addr, hi: Addr, i: nat)
    requires Tiled(h, blocks, lo, hi) && Linked(h, blocks) && FreeLinked(h, frees) && FreesAreFree(h, blocks, frees)
    requires i + 1 < |blocks| && blocks[i] in h && h[blocks[i]].next in h && SameBlocks(Merged(h, blocks[i]), r)
    requires forall a :: a in rest <==> a in frees && a != blocks[i + 1]
    ensures MergedBlocks(h, r, blocks, i)
    ensures Tiled(r, Cut(blocks, i + 1), lo, hi) && Linked(r, Cut(blocks, i + 1))
    ensures FreesAreFree(r, Cut(blocks, i + 1), rest)
    ensures At(Cut(blocks, i + 1), 0) == At(blocks, 0)
    ensures At(Cut(blocks, i + 1), |Cut(blocks, i + 1)| - 1) ==
              if blocks[i + 1] == At(blocks, |blocks| - 1) then blocks[i] else At(blocks, |blocks| - 1)
  {
    MergedIs(h, blocks, frees, lo, hi, i);
    MergedSame(h, Merged(h, blocks[i]), r, blocks, i);
    MergedTiled(h, r, blocks, i, lo, hi);
    MergedLinked(h, r, blocks, i);
    TiledDistinct(h, blocks, lo, hi);
    MergedFrees(h, r, blocks, i, frees, rest);
    CutEnds(blocks, i + 1);
  }

  // -- A new block at the end, and a longer last block

  ghost predicate GrownBlocks(h: Headers, r: Headers, blocks: seq<Addr>, hi: Addr, size: nat) {
    && (forall j :: 0 <= j < |blocks| && blocks[j] in h ==>
          blocks[j] in r && r[blocks[j]] == if j == |blocks| - 1 then h[blocks[j]].(next := hi) else h[blocks[j]])
    && hi in r
    && r[hi].ptr == hi + HEADER && r[hi].size == size && !r[hi].free
    && r[hi].next == 0 && r[hi].prev == At(blocks, |blocks| - 1)
  }

  lemma GrownOk(h: Headers, r: Headers, blocks: seq<Addr>, lo: Addr, hi: Addr, size: nat, end: Addr)
    requires GrownBlocks(h, r, blocks, hi, size) && Tiled(h, blocks, lo, hi) && Linked(h, blocks)
    requires end == hi + HEADER + size
    ensures Tiled(r, blocks + [hi], lo, end) && Linked(r, blocks + [hi])
  {
    var s := blocks + [hi];
    forall j | 0 <= j < |s| ensures BlockOk(r, s, j, end) {
      if j < |blocks| {
        assert BlockOk(h, blocks, j, hi) && s[j] == blocks[j];
        assert Bound(s, j + 1, end) == Bound(blocks, j + 1, hi);
      }
    }
    forall j | 0 <= j < |s| ensures LinkOk(r, s, j) {
      if j < |blocks| {
        assert LinkOk(h, blocks, j) && s[j] == blocks[j];
        assert At(s, j + 1) == if j == |blocks| - 1 then hi else At(blocks, j + 1);
      }
    }
    assert Bound(s, 0, end) == Bound(blocks, 0, hi);
  }

  lemma StretchedOk(h: Headers, blocks: seq<Addr>, lo: Addr, hi: Addr, size: nat, end: Addr)
    requires Tiled(h, blocks, lo, hi) && Linked(h, blocks) && blocks != []
    requires Distinct(blocks) && blocks[|blocks| - 1] in h
    requires var last := blocks[|blocks| - 1]; h[last].size <= size && end == hi + size - h[last].size
    ensures var last := blocks[|blocks| - 1];
            var r := h[last := h[last].(size := size)];
            Tiled(r, blocks, lo, end) && Linked(r, blocks)
  {
    var last := blocks[|blocks| - 1];
    var r := h[last := h[last].(size := size)];
    forall j | 0 <= j < |blocks| ensures BlockOk(r, blocks, j, end) {
      assert BlockOk(h, blocks, j, hi);
    }
    forall j | 0 <= j < |blocks| ensures LinkOk(r, blocks, j) {
      assert LinkOk(h, blocks, j);
    }
  }

  lemma GrownFrees(h: Headers, r: Headers, blocks: seq<Addr>, frees: seq<Addr>, hi: Addr, size: nat)
    requires GrownBlocks(h, r, blocks, hi, size) && FreesAreFree(h, blocks, frees)
    requires (forall a :: a in blocks ==> a in h) && hi !in blocks
    ensures FreesAreFree(r, blocks + [hi], frees)
  {
    forall a | a in blocks ensures a in r && r[a].free == h[a].free {
      var j :| 0 <= j < |blocks| && blocks[j] == a;
    }
  }
}
