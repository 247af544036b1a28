/** The memory an allocator works in: block headers and payload bytes share one address space, so
    that writing either can destroy the other; and what makes the headers in it a heap. */
module Heap {

  /** An address; 0 is the null pointer. */
  type Addr = nat

  /** sizeof(memory_list): two words, an int with its padding, and four pointers. */
  const HEADER: nat := 56

  datatype Header = Header(ptr: Addr, size: nat, free: bool, next: Addr, prev: Addr, nextfree: Addr, prevfree: Addr)

  type Headers = map<Addr, Header>
  type Bytes = map<Addr, bv8>

  // -- Memory

  predicate InHeader(a: Addr, x: Addr) {
    a <= x < a + HEADER
  }

  predicate Apart(a: Addr, b: Addr) {
    a + HEADER <= b || b + HEADER <= a
  }

  /** Memory after a header has been written at a: headers that overlap it are gone. */
  function Overwritten(hdr: Headers, a: Addr, h: Header): Headers {
    (hdr - set b | b in hdr && !Apart(a, b))[a := h]
  }

  /** The payload bytes that survive a header written at a. */
  function Clobbered(bytes: Bytes, a: Addr): Bytes {
    bytes - set x | x in bytes && InHeader(a, x)
  }

  /** A header takes 56 bytes, and writing one destroys what payload bytes and other headers have there. */
  lemma WritingDestroys(hdr: Headers, bytes: Bytes, a: Addr, h: Header, b: Addr)
    ensures b in Clobbered(bytes, a) <==> b in bytes && !(a <= b < a + 56)
    ensures b in Overwritten(hdr, a, h) <==> b == a || (b in hdr && (b + 56 <= a || a + 56 <= b))
  {
  }

  /** No header overlaps another one or a payload byte. */
  ghost predicate Separate(hdr: Headers, bytes: Bytes) {
    && (forall a, b :: a in hdr && b in hdr && a != b ==> Apart(a, b))
    && (forall a, x :: a in hdr && x in bytes ==> !InHeader(a, x))
  }

  lemma RewriteHeader(hdr: Headers, bytes: Bytes, a: Addr, h: Header)
    requires Separate(hdr, bytes) && a in hdr
    ensures Overwritten(hdr, a, h) == hdr[a := h] && Clobbered(bytes, a) == bytes
  {
  }

  lemma OverwrittenSeparate(hdr: Headers, bytes: Bytes, a: Addr, h: Header)
    requires Separate(hdr, bytes)
    ensures Separate(Overwritten(hdr, a, h), Clobbered(bytes, a))
  {
  }

  // -- Lists of addresses

  function At(s: seq<Addr>, i: int): Addr {
    if 0 <= i < |s| then s[i] else 0
  }

  ghost predicate Distinct(s: seq<Addr>) {
    forall i, j :: 0 <= i < j < |s| ==> s[i] != s[j]
  }

  function Cut(s: seq<Addr>, k: nat): seq<Addr>
    requires k < |s|
  {
    s[..k] + s[k + 1..]
  }

  function Spliced(s: seq<Addr>, k: nat, a: Addr): seq<Addr>
    requires k <= |s|
  {
    s[..k] + [a] + s[k..]
  }

  lemma CutMembers(s: seq<Addr>, k: nat)
    requires Distinct(s) && k < |s|
    ensures Distinct(Cut(s, k))
    ensures forall a :: a in Cut(s, k) <==> a in s && a != s[k]
  {
    var c := Cut(s, k);
    forall a | a in s && a != s[k] ensures a in c {
      var i :| 0 <= i < |s| && s[i] == a;
      assert c[if i < k then i else i - 1] == a;
    }
  }

  // -- What makes a heap

  /** The end of the part of the heap before block i. */
  function Bound(blocks: seq<Addr>, i: nat, hi: Addr): Addr {
    if i < |blocks| then blocks[i] else hi
  }

  /** Block i has a header and ends where the next one starts. */
  ghost predicate BlockOk(hdr: Headers, blocks: seq<Addr>, i: nat, hi: Addr)
    requires i < |blocks|
  {
    && blocks[i] in hdr
    && hdr[blocks[i]].ptr == blocks[i] + HEADER
    && hdr[blocks[i]].ptr + hdr[blocks[i]].size == Bound(blocks, i + 1, hi)
  }

  /** The blocks fill the heap from lo to hi without a gap or an overlap. */
  ghost predicate Tiled(hdr: Headers, blocks: seq<Addr>, lo: Addr, hi: Addr) {
    && 0 < lo == Bound(blocks, 0, hi)
    && forall i :: 0 <= i < |blocks| ==> BlockOk(hdr, blocks, i, hi)
  }

  ghost predicate LinkOk(hdr: Headers, blocks: seq<Addr>, i: nat)
    requires i < |blocks|
  {
    blocks[i] in hdr && hdr[blocks[i]].next == At(blocks, i + 1) && hdr[blocks[i]].prev == At(blocks, i - 1)
  }

  /** next and prev run through the blocks in address order. */
  ghost predicate Linked(hdr: Headers, blocks: seq<Addr>) {
    forall i :: 0 <= i < |blocks| ==> LinkOk(hdr, blocks, i)
  }

  ghost predicate FreeLinkOk(hdr: Headers, frees: seq<Addr>, j: nat)
    requires j < |frees|
  {
    && frees[j] in hdr && frees[j] != 0
    && hdr[frees[j]].nextfree == At(frees, j + 1)
    && hdr[frees[j]].prevfree == At(frees, j - 1)
  }

  /** nextfree and prevfree run through the free list. */
  ghost predicate FreeLinked(hdr: Headers, frees: seq<Addr>) {
    Distinct(frees) && forall j :: 0 <= j < |frees| ==> FreeLinkOk(hdr, frees, j)
  }

  /** The free list holds exactly the blocks whose free flag is set. */
  ghost predicate FreesAreFree(hdr: Headers, blocks: seq<Addr>, frees: seq<Addr>) {
    forall a :: a in frees <==> a in blocks && a in hdr && hdr[a].free
  }

  ghost predicate BothFree(hdr: Headers, blocks: seq<Addr>, i: nat)
    requires i + 1 < |blocks|
  {
    blocks[i] in hdr && blocks[i + 1] in hdr && hdr[blocks[i]].free && hdr[blocks[i + 1]].free
  }

  ghost predicate NoFreeNeighbours(hdr: Headers, blocks: seq<Addr>) {
    forall i :: 0 <= i < |blocks| - 1 ==> !BothFree(hdr, blocks, i)
  }

  lemma {:induction false} TiledUp(hdr: Headers, blocks: seq<Addr>, lo: Addr, hi: Addr, i: nat, j: nat)
    requires Tiled(hdr, blocks, lo, hi) && i <= j <= |blocks|
    ensures Bound(blocks, i, hi) <= Bound(blocks, j, hi)
    decreases j - i
  {
    if i < j {
      assert BlockOk(hdr, blocks, i, hi);
      TiledUp(hdr, blocks, lo, hi, i + 1, j);
    }
  }

  /** Blocks further up start after blocks further down have ended. */
  lemma TiledApart(hdr: Headers, blocks: seq<Addr>, lo: Addr, hi: Addr, i: nat, j: nat)
    requires Tiled(hdr, blocks, lo, hi) && i < |blocks| && i < j <= |blocks|
    ensures BlockOk(hdr, blocks, i, hi)
    ensures lo <= blocks[i] && blocks[i] + HEADER + hdr[blocks[i]].size <= Bound(blocks, j, hi) <= hi
  {
    assert BlockOk(hdr, blocks, i, hi);
    TiledUp(hdr, blocks, lo, hi, 0, i);
    TiledUp(hdr, blocks, lo, hi, i + 1, j);
    TiledUp(hdr, blocks, lo, hi, j, |blocks|);
  }

  /** So the blocks are distinct, and two payloads never share a byte. */
  lemma BlocksDisjoint(hdr: Headers, blocks: seq<Addr>, lo: Addr, hi: Addr, i: nat, j: nat)
    requires Tiled(hdr, blocks, lo, hi) && i < |blocks| && j < |blocks| && i != j
    ensures blocks[i] != blocks[j]
    ensures forall x :: InPayload(hdr, blocks[i], x) ==> !InPayload(hdr, blocks[j], x) && !InHeader(blocks[j], x)
  {
    if i < j {
      TiledApart(hdr, blocks, lo, hi, i, j);
    } else {
      TiledApart(hdr, blocks, lo, hi, j, i);
    }
  }

  predicate InPayload(hdr: Headers, a: Addr, x: Addr) {
    a in hdr && a + HEADER <= x < a + HEADER + hdr[a].size
  }

  lemma TiledDistinct(hdr: Headers, blocks: seq<Addr>, lo: Addr, hi: Addr)
    requires Tiled(hdr, blocks, lo, hi)
    ensures Distinct(blocks) && 0 !in blocks && forall a :: a in blocks ==> a in hdr
  {
    forall i, j | 0 <= i < j < |blocks| ensures blocks[i] != blocks[j] {
      BlocksDisjoint(hdr, blocks, lo, hi, i, j);
    }
    forall i | 0 <= i < |blocks| ensures blocks[i] != 0 {
      TiledApart(hdr, blocks, lo, hi, i, |blocks|);
    }
    forall i | 0 <= i < |blocks| ensures blocks[i] in hdr {
      assert BlockOk(hdr, blocks, i, hi);
    }
  }

  /** The bytes of the heap are all accounted for: payloads plus one header a block. */
  function Total(hdr: Headers, blocks: seq<Addr>): nat {
    if blocks == [] then 0
    else (if blocks[0] in hdr then hdr[blocks[0]].size else 0) + HEADER + Total(hdr, blocks[1..])
  }

  lemma {:induction false} TotalIsTheHeap(hdr: Headers, blocks: seq<Addr>, lo: Addr, hi: Addr)
    requires Tiled(hdr, blocks, lo, hi)
    ensures Total(hdr, blocks) == hi - lo
  {
    if blocks != [] {
      var rest := blocks[1..];
      assert BlockOk(hdr, blocks, 0, hi);
      forall i | 0 <= i < |rest| ensures BlockOk(hdr, rest, i, hi) {
        assert BlockOk(hdr, blocks, i + 1, hi);
      }
      TotalIsTheHeap(hdr, rest, Bound(blocks, 1, hi), hi);
    }
  }
}
