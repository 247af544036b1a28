/** Reads and writes of a file whose bytes lie in direct blocks and in blocks listed by an indirect block,
    against the flat sequence of bytes they stand for. */
module Minixfs {
  import Sets

  type BlockNumber = nat

  /** A data block holds bytes, or block numbers when it is an indirect block. */
  datatype Content = Bytes(bytes: seq<bv8>) | Numbers(numbers: seq<BlockNumber>)

  /** Position of byte o of block i in the file, with blocks of b bytes. */
  function Position(b: nat, i: nat, o: nat): nat {
    if i == 0 then o else b + Position(b, i - 1, o)
  }

  lemma {:induction false} PositionIs(b: nat, i: nat, o: nat)
    ensures Position(b, i, o) == i * b + o
  {
    if i > 0 {
      PositionIs(b, i - 1, o);
      assert i * b == (i - 1) * b + b;
    }
  }

  lemma BlocksInOrder(b: nat, i: nat, j: nat)
    requires i < j
    ensures (i + 1) * b <= j * b
  {
    assert (j - (i + 1)) * b >= 0;
    assert j * b == (i + 1) * b + (j - (i + 1)) * b;
  }

  lemma MoreBlocks(b: nat, m: nat, n: nat)
    requires m <= n
    ensures m * b <= n * b
  {
    if m < n { BlocksInOrder(b, m, n); }
  }

  /** The block and the offset of a position are unique. */
  lemma Located(b: nat, p: nat, i: nat, o: nat)
    requires b > 0 && o < b && p == Position(b, i, o)
    ensures p / b == i && p % b == o
  {
    PositionIs(b, i, o);
    Divided(b, p / b, p % b, i, o);
  }

  lemma Divided(b: nat, q: nat, r: nat, i: nat, o: nat)
    requires r < b && o < b && q * b + r == i * b + o
    ensures q == i && r == o
  {
    if q < i { BlocksInOrder(b, q, i); }
    if i < q { BlocksInOrder(b, i, q); }
    assert (q + 1) * b == q * b + b && (i + 1) * b == i * b + b;
  }

  lemma Within(b: nat, p: nat, n: nat)
    requires b > 0 && p < n * b
    ensures p / b < n && p % b < b && Position(b, p / b, p % b) == p
  {
    var q := p / b;
    PositionIs(b, q, p % b);
    if n < q { BlocksInOrder(b, n, q); }
  }

  lemma Joined<T>(s: seq<T>, i: nat, j: nat, n: nat)
    requires i <= j && j + n <= |s|
    ensures s[i..j + n] == s[i..j] + s[j..j + n]
  {
  }

  lemma Inside(b: nat, p: nat, n: nat)
    requires b > 0 && p <= n * b
    ensures p / b < n || (p / b == n && p % b == 0)
  {
    if n < p / b { BlocksInOrder(b, n, p / b); }
  }

  lemma Before(b: nat, i: nat, o: nat, n: nat)
    requires i < n && o < b
    ensures Position(b, i, o) < n * b
  {
    PositionIs(b, i, o);
    BlocksInOrder(b, i, n);
  }

  lemma Shifted(b: nat, i: nat, o: nat, n: nat, count: nat)
    requires i < count && o + n <= b
    ensures Position(b, i, o) + n <= count * b
  {
    PositionIs(b, i, o);
    BlocksInOrder(b, i, count);
    assert (i + 1) * b == i * b + b;
  }

  /** Whether byte o of block i lies in the n bytes that start at offset f of block k and stay inside it. */
  lemma ChunkMembers(b: nat, i: nat, o: nat, k: nat, f: nat, n: nat)
    requires o < b && f + n <= b
    ensures k == i ==> Position(b, k, f) - Position(b, i, o) == f - o
    ensures Position(b, k, f) <= Position(b, i, o) < Position(b, k, f) + n <==> i == k && f <= o < f + n
  {
    PositionIs(b, i, o);
    PositionIs(b, k, f);
    if i < k {
      BlocksInOrder(b, i, k);
    } else if k < i {
      BlocksInOrder(b, k, i);
    }
  }

  /** From was on, the bytes at positions from to from + |data| are now data. */
  ghost predicate Patched(was: seq<bv8>, now: seq<bv8>, from: nat, data: seq<bv8>) {
    && |was| <= |now| && from + |data| <= |now|
    && now[from..from + |data|] == data
    && forall p :: 0 <= p < |was| && !(from <= p < from + |data|) ==> now[p] == was[p]
  }

  /** s with data in place of the bytes from at on. */
  function Splice(s: seq<bv8>, at: nat, data: seq<bv8>): (r: seq<bv8>)
    requires at + |data| <= |s|
    ensures |r| == |s|
  {
    s[..at] + data + s[at + |data|..]
  }

  /** The first n bytes of buf have been put into was at off. */
  ghost predicate Spliced(was: seq<bv8>, now: seq<bv8>, off: nat, buf: seq<bv8>, n: nat) {
    n <= |buf| && off + n <= |was| && now == Splice(was, off, buf[..n])
  }

  lemma SpliceNext(s: seq<bv8>, off: nat, buf: seq<bv8>, done: nat, n: nat)
    requires off + |buf| <= |s| && done + n <= |buf|
    ensures Splice(Splice(s, off, buf[..done]), off + done, buf[done..done + n]) == Splice(s, off, buf[..done + n])
  {
    assert buf[..done + n] == buf[..done] + buf[done..done + n];
  }

  /** What a splice at byte o of block i has at byte m of block k. */
  lemma ChunkByte(b: nat, i: nat, o: nat, data: seq<bv8>, was: seq<bv8>, k: nat, m: nat)
    requires o < b && o + |data| <= b && m < b && Position(b, k, m) < |was| && Position(b, i, o) + |data| <= |was|
    ensures Splice(was, Position(b, i, o), data)[Position(b, k, m)] ==
              if k == i && o <= m < o + |data| then data[m - o] else was[Position(b, k, m)]
  {
    ChunkMembers(b, k, m, i, o, |data|);
    SpliceAt(was, Position(b, i, o), data, Position(b, k, m));
  }

  lemma SpliceAt(s: seq<bv8>, at: nat, data: seq<bv8>, p: nat)
    requires at + |data| <= |s| && p < |s|
    ensures Splice(s, at, data)[p] == if at <= p < at + |data| then data[p - at] else s[p]
  {
  }

  /** From byte o of block i to byte rem of block last: the rest of block i, or the part of it up to rem. */
  lemma Chunk(b: nat, i: nat, o: nat, last: nat, rem: nat)
    requires o < b && rem < b && Position(b, i, o) < Position(b, last, rem)
    ensures i < last || (i == last && o < rem)
    ensures Position(b, i, o) + (b - o) == Position(b, i + 1, 0)
    ensures Position(b, i, o) + (b - o) > Position(b, last, rem) ==>
              i == last && Position(b, i, o) + (rem - o) == Position(b, last, rem)
  {
    PositionIs(b, i, o);
    PositionIs(b, i + 1, 0);
    PositionIs(b, last, rem);
    assert (i + 1) * b == i * b + b && (last + 1) * b == last * b + b;
    if last < i { BlocksInOrder(b, last, i); }
    if i < last { BlocksInOrder(b, i, last); }
  }

  /** What a read of want bytes at off gives of a file of some size: the flat bytes there, clipped at the size. */
  function Clipped(flat: seq<bv8>, size: nat, want: nat, off: nat): seq<bv8>
    requires size <= |flat|
  {
    if off >= size then [] else flat[off..if off + want <= size then off + want else size]
  }

  function Max(a: nat, b: nat): nat {
    if a < b then b else a
  }

  /** A read gives back what a write just stored, whatever blocks both go over, and a read of a part
      below the old size and away from the write gives what it gave before. */
  lemma ReadSeesWrites(was: seq<bv8>, now: seq<bv8>, size: nat, buf: seq<bv8>, off: nat, want: nat, from: nat)
    requires Patched(was, now, off, buf) && size <= |was|
    ensures Max(size, off + |buf|) <= |now|
    ensures Clipped(now, Max(size, off + |buf|), |buf|, off) == buf
    ensures from + want <= size && (from + want <= off || off + |buf| <= from) ==>
              Clipped(now, Max(size, off + |buf|), want, from) == Clipped(was, size, want, from)
  {
    var end := Max(size, off + |buf|);
    if off < end {
      assert Clipped(now, end, |buf|, off) == now[off..off + |buf|];
    }
    if from + want <= size && (from + want <= off || off + |buf| <= from) && from < size {
      assert now[from..from + want] == was[from..from + want];
    }
  }

  /** The number of blocks that positions up to to need. */
  function BlocksFor(b: nat, to: nat): nat
    requires b > 0
  {
    to / b + if to % b != 0 then 1 else 0
  }

  /** It is the least that is enough. */
  lemma LeastBlocks(b: nat, to: nat, n: nat)
    requires b > 0
    ensures to <= n * b <==> BlocksFor(b, to) <= n
  {
    var k := BlocksFor(b, to);
    EnoughBlocks(b, to, k + n);
    if k <= n {
      MoreBlocks(b, k, n);
    } else {
      MoreBlocks(b, n, k - 1);
    }
  }

  /** How many blocks of the disk a file takes to grow from count to n blocks: the first one that is not direct
      takes the indirect block with it. */
  function BlocksTaken(directs: nat, count: nat, n: nat): nat {
    if n <= count then 0 else n - count + if count <= directs < n then 1 else 0
  }

  /** The block count of a write up to position to: enough for it, and within the limit when to is. */
  lemma EnoughBlocks(b: nat, to: nat, limit: nat)
    requires b > 0 && to <= limit * b
    ensures BlocksFor(b, to) <= limit && to <= BlocksFor(b, to) * b
  {
    var q, r := to / b, to % b;
    assert to == q * b + r && (q + 1) * b == q * b + b;
    if r != 0 {
      if limit <= q { BlocksInOrder(b, limit, q + 1); }
    } else if limit < q {
      BlocksInOrder(b, limit, q);
    }
  }

  class File {
    /** sizeof(data_block), NUM_DIRECT_BLOCKS and NUM_INDIRECT_BLOCKS. */
    const block: nat
    const directs: nat
    const indirects: nat
    var blocks: map<BlockNumber, Content>
    var direct: seq<BlockNumber>
    var indirect: BlockNumber
    var size: nat
    /** How many data blocks the file has, and how many the disk still has for any file. */
    var count: nat
    var spare: nat

    constructor (block: nat, directs: nat, indirects: nat, blocks: map<BlockNumber, Content>, spare: nat)
      requires block > 0
      ensures Valid() && count == 0 && size == 0 && this.blocks == blocks && this.spare == spare
      ensures this.block == block && this.directs == directs && this.indirects == indirects
    {
      this.block, this.directs, this.indirects, this.blocks := block, directs, indirects, blocks;
      direct, indirect, size, count, this.spare := seq(directs, _ => 0), 0, 0, 0, spare;
    }

    predicate HasNumbers()
      reads this`blocks, this`direct, this`indirect
    {
      indirect in blocks && blocks[indirect].Numbers? && |blocks[indirect].numbers| == indirects
    }

    /** The number of block i of the file. */
    function BlockAt(i: nat): BlockNumber
      reads this`blocks, this`direct, this`indirect
      requires |direct| == directs && i < directs + indirects && (i >= directs ==> HasNumbers())
    {
      if i < directs then direct[i] else blocks[indirect].numbers[i - directs]
    }

    ghost predicate BlockOk(i: nat)
      reads this`blocks, this`direct, this`indirect
      requires |direct| == directs && i < directs + indirects && (i >= directs ==> HasNumbers())
    {
      BlockAt(i) in blocks && blocks[BlockAt(i)].Bytes? && |blocks[BlockAt(i)].bytes| == block
    }

    /** The blocks of the file are there and are all different. */
    ghost predicate Laid()
      reads this`blocks, this`direct, this`indirect, this`count
    {
      && block > 0
      && |direct| == directs
      && count <= directs + indirects
      && (count > directs ==> HasNumbers())
      && (forall i :: 0 <= i < count ==> BlockOk(i))
      && (forall i, j :: 0 <= i < j < count ==> BlockAt(i) != BlockAt(j))
    }

    ghost predicate Valid()
      reads this
    {
      Laid() && size <= count * block
    }

    ghost function ByteAt(i: nat, o: nat): bv8
      reads this`blocks, this`direct, this`indirect, this`count
    {
      if Laid() && i < count && o < block then
        assert BlockOk(i);
        blocks[BlockAt(i)].bytes[o]
      else 0
    }

    /** The bytes in all blocks of the file, the part past its size included. */
    ghost function Flat(): (r: seq<bv8>)
      reads this
      requires Laid()
      ensures |r| == count * block
    {
      seq(count * block, p requires 0 <= p < count * block && block > 0 reads this => ByteAt(p / block, p % block))
    }

    lemma FlatAt(i: nat, o: nat)
      requires Laid() && i < count && o < block
      ensures Position(block, i, o) < |Flat()| && Flat()[Position(block, i, o)] == ByteAt(i, o)
    {
      Located(block, Position(block, i, o), i, o);
      Before(block, i, o, count);
    }

    /** The blocks the file has, its indirect block included when it is in use. */
    ghost function Owned(): set<BlockNumber>
      reads this`blocks, this`direct, this`indirect, this`count
    {
      if Laid() then (set i | 0 <= i < count :: BlockAt(i)) + (if count > directs then {indirect} else {}) else {}
    }

    /** memcpy of some bytes into block i at offset o. */
    method CopyIn(i: nat, o: nat, data: seq<bv8>)
      requires Laid() && i < count && o + |data| <= block
      modifies this`blocks
      ensures Laid()
      ensures forall k, m :: 0 <= k < count && 0 <= m < block ==>
                ByteAt(k, m) == if k == i && o <= m < o + |data| then data[m - o] else old(ByteAt(k, m))
      ensures forall b :: b in old(blocks) && b !in old(Owned()) ==> b in blocks && blocks[b] == old(blocks)[b]
      ensures Owned() == old(Owned())
    {
      assert BlockOk(i);
      var blk := BlockAt(i);
      var bytes := blocks[blk].bytes;
      ghost var was := blocks;
      blocks := blocks[blk := Bytes(bytes[..o] + data + bytes[o + |data|..])];
      assert count > directs ==> blk != indirect;
      assert forall k :: 0 <= k < count ==> BlockAt(k) == old(BlockAt(k));
      forall k | 0 <= k < count ensures BlockOk(k) {
        assert old(BlockOk(k));
      }
    }

    /** memcpy into block i at offset o is a splice of the flat bytes. */
    method WriteChunk(data: seq<bv8>, i: nat, o: nat)
      requires Laid() && i < count && o < block && o + |data| <= block
      modifies this`blocks
      ensures Laid()
      ensures Position(block, i, o) + |data| <= |old(Flat())|
      ensures Flat() == Splice(old(Flat()), Position(block, i, o), data)
      ensures forall b :: b in old(blocks) && b !in old(Owned()) ==> b in blocks && blocks[b] == old(blocks)[b]
      ensures Owned() == old(Owned())
    {
      ghost var was := Flat();
      CopyIn(i, o, data);
      Shifted(block, i, o, |data|, count);
      ghost var at := Position(block, i, o);
      forall p | 0 <= p < count * block ensures Flat()[p] == Splice(was, at, data)[p] {
        Within(block, p, count);
        ChunkByte(block, i, o, data, was, p / block, p % block);
      }
    }

    /** One round of the loop of a write. */
    method WriteRound(ghost was: seq<bv8>, buf: seq<bv8>, off: nat, done: nat, n: nat, i: nat, o: nat)
      requires Laid() && i < count && o < block && o + n <= block && done + n <= |buf| && off + |buf| <= |was|
      requires Position(block, i, o) == off + done && Spliced(was, Flat(), off, buf, done)
      modifies this`blocks
      ensures Laid()
      ensures Spliced(was, Flat(), off, buf, done + n)
      ensures forall b :: b in old(blocks) && b !in old(Owned()) ==> b in blocks && blocks[b] == old(blocks)[b]
      ensures Owned() == old(Owned())
    {
      WriteChunk(buf[done..done + n], i, o);
      SpliceNext(was, off, buf, done, n);
    }

    /** Where a transfer of total bytes at off starts, and the part of the last block it takes. */
    method Begin(off: nat, total: nat) returns (remainder: nat, blockIdx: nat, offset: nat, ghost last: nat)
      requires block > 0 && off + total <= count * block
      ensures remainder < block && offset < block
      ensures Position(block, blockIdx, offset) == off && Position(block, last, remainder) == off + total
      ensures last < count || (last == count && remainder == 0)
    {
      remainder := (off + total) % block;
      blockIdx := off / block;
      offset := off % block;
      last := (off + total) / block;
      PositionIs(block, blockIdx, offset);
      PositionIs(block, last, remainder);
      Inside(block, off + total, count);
    }

    /** How many bytes the next round of the loop moves, once it has moved the first done. */
    method ChunkLength(off: nat, done: nat, total: nat, blockIdx: nat, offset: nat, remainder: nat, ghost last: nat)
      returns (n: nat)
      requires done < total && offset < block && remainder < block && last <= count && (last == count ==> remainder == 0)
      requires Position(block, blockIdx, offset) == off + done && Position(block, last, remainder) == off + total
      ensures 0 < n && offset + n <= block && done + n <= total && blockIdx < count
      ensures done + n < total ==> Position(block, blockIdx + 1, 0) == off + done + n
    {
      Chunk(block, blockIdx, offset, last, remainder);
      n := if done + block - offset <= total then block - offset else remainder - offset;
    }

    /** The loop of minixfs_write. */
    method WriteBytes(buf: seq<bv8>, off: nat)
      requires Laid() && off + |buf| <= count * block
      modifies this`blocks
      ensures Laid()
      ensures Flat() == Splice(old(Flat()), off, buf)
      ensures forall b :: b in old(blocks) && b !in old(Owned()) ==> b in blocks && blocks[b] == old(blocks)[b]
    {
      var total := |buf|;
      ghost var was, mine, there := Flat(), Owned(), blocks;
      ghost var last: nat;
      var remainder: nat, blockIdx: nat, offset: nat;
      remainder, blockIdx, offset, last := Begin(off, total);
      var written := 0;
      while written < total
        invariant Laid()
        invariant written <= total && offset < block
        invariant written < total ==> Position(block, blockIdx, offset) == off + written
        invariant Spliced(was, Flat(), off, buf, written)
        invariant forall b :: b in there && b !in mine ==> b in blocks && blocks[b] == there[b]
        invariant Owned() == mine
        decreases total - written
      {
        var n := ChunkLength(off, written, total, blockIdx, offset, remainder, last);
        WriteRound(was, buf, off, written, n, blockIdx, offset);
        written := written + n;
        offset := 0;
        blockIdx := blockIdx + 1;
      }
      assert buf[..total] == buf;
    }

    /** The loop of minixfs_read. */
    method ReadBytes(off: nat, total: nat) returns (buf: seq<bv8>)
      requires Laid() && off + total <= count * block
      ensures buf == Flat()[off..off + total]
    {
      ghost var last: nat;
      var remainder: nat, blockIdx: nat, offset: nat;
      remainder, blockIdx, offset, last := Begin(off, total);
      var done := 0;
      buf := [];
      while done < total
        invariant done == |buf| <= total && offset < block
        invariant done < total ==> Position(block, blockIdx, offset) == off + done
        invariant buf == Flat()[off..off + done]
        decreases total - done
      {
        var n := ChunkLength(off, done, total, blockIdx, offset, remainder, last);
        assert BlockOk(blockIdx);
        var piece := blocks[BlockAt(blockIdx)].bytes[offset..offset + n];
        PieceOfFlat(blockIdx, offset, n, piece);
        Joined(Flat(), off, off + done, n);
        buf := buf + piece;
        done := done + n;
        offset := 0;
        blockIdx := blockIdx + 1;
      }
    }

    lemma PieceOfFlat(i: nat, o: nat, n: nat, piece: seq<bv8>)
      requires Laid() && i < count && o + n <= block && BlockOk(i)
      requires piece == blocks[BlockAt(i)].bytes[o..o + n]
      ensures var p := Position(block, i, o); p + n <= |Flat()| && piece == Flat()[p..p + n]
    {
      var p := Position(block, i, o);
      Shifted(block, i, o, n, count);
      forall m | 0 <= m < n ensures piece[m] == Flat()[p..p + n][m] {
        FlatAt(i, o + m);
        PositionIs(block, i, o + m);
        PositionIs(block, i, o);
      }
    }

    /** minixfs_read of an inode that exists: nothing past the size is ever returned. */
    method Read(want: nat, off: nat) returns (buf: seq<bv8>, newOff: nat)
      requires Valid()
      ensures size <= |Flat()| && buf == Clipped(Flat(), size, want, off)
      ensures |buf| == if off >= size then 0 else if off + want <= size then want else size - off
      ensures forall k :: 0 <= k < |buf| ==> buf[k] == Flat()[off + k]
      ensures newOff == off + |buf|
    {
      if size < off {
        return [], off;
      }
      var n := if want > size - off then size - off else want;
      buf := ReadBytes(off, n);
      newOff := off + n;
    }

    /** The next block of the file is b, a block nobody has. */
    method AppendBlock(b: BlockNumber, fill: seq<bv8>)
      requires Laid() && count < directs + indirects && (count >= directs ==> HasNumbers())
      requires b !in blocks && |fill| == block
      modifies this`blocks, this`direct, this`count
      ensures Laid() && count == old(count) + 1
      ensures forall i, o :: 0 <= i < old(count) && 0 <= o < block ==> ByteAt(i, o) == old(ByteAt(i, o))
      ensures forall x :: x in old(blocks) && !(old(count) >= directs && x == indirect) ==>
                x in blocks && blocks[x] == old(blocks)[x] && (x in Owned() ==> x in old(Owned()))
    {
      assert forall i :: 0 <= i < count ==> BlockOk(i);
      blocks := blocks[b := Bytes(fill)];
      if count < directs {
        direct := direct[count := b];
      } else {
        blocks := blocks[indirect := Numbers(blocks[indirect].numbers[count - directs := b])];
      }
      count := count + 1;
      assert BlockAt(count - 1) == b;
      assert forall i :: 0 <= i < count - 1 ==> BlockAt(i) == old(BlockAt(i));
      forall i | 0 <= i < count ensures BlockOk(i) {
        assert i < count - 1 ==> old(BlockOk(i));
      }
      forall i, j | 0 <= i < j < count ensures BlockAt(i) != BlockAt(j) {
        assert old(BlockOk(i)) && (j < count - 1 ==> old(BlockAt(i)) != old(BlockAt(j)));
      }
      forall i, o | 0 <= i < old(count) && 0 <= o < block ensures ByteAt(i, o) == old(ByteAt(i, o)) {
        assert old(BlockOk(i)) && old(BlockAt(i)) != b;
      }
    }

    method AddBlock()
      requires Laid() && count < directs + indirects
      modifies this`blocks, this`direct, this`indirect, this`count
      ensures Laid() && count == old(count) + 1 && old(Flat()) <= Flat()
      ensures forall x :: x in old(blocks) && x !in old(Owned()) ==>
                x in blocks && blocks[x] == old(blocks)[x] && x !in Owned()
    {
      AllocateBlock();
      ghost var n := old(count);
      MoreBlocks(block, n, count);
      forall p | 0 <= p < n * block ensures Flat()[p] == old(Flat())[p] {
        Within(block, p, n);
      }
    }

    /** A free block, cleared or not, for block number count of the file. */
    method AllocateBlock()
      requires Laid() && count < directs + indirects
      modifies this`blocks, this`direct, this`indirect, this`count
      ensures Laid() && count == old(count) + 1
      ensures forall i, o :: 0 <= i < old(count) && 0 <= o < block ==> ByteAt(i, o) == old(ByteAt(i, o))
      ensures forall x :: x in old(blocks) && x !in old(Owned()) ==>
                x in blocks && blocks[x] == old(blocks)[x] && x !in Owned()
    {
      if count == directs {
        AddIndirect();
      }
      var fill: seq<bv8> := *;
      if |fill| != block {
        fill := seq(block, _ => 0);
      }
      var b := FreeBlock();
      AppendBlock(b, fill);
    }

    /** minixfs_min_blockcount: at least n blocks, or a failure, after which some may have been added. It fails exactly
        when the disk does not have that many blocks, the indirect one included. */
    method MinBlockcount(n: nat) returns (ok: bool)
      requires Laid() && n <= directs + indirects
      modifies this`blocks, this`direct, this`indirect, this`count, this`spare
      ensures Laid() && count >= old(count) && (ok ==> count == Max(old(count), n))
      ensures ok <==> BlocksTaken(directs, old(count), n) <= old(spare)
      ensures spare + BlocksTaken(directs, old(count), count) == old(spare)
      ensures old(Flat()) <= Flat()
      ensures forall x :: x in old(blocks) && x !in old(Owned()) ==>
                x in blocks && blocks[x] == old(blocks)[x] && x !in Owned()
    {
      ok := true;
      while count < n
        invariant Laid() && old(count) <= count <= Max(old(count), n)
        invariant spare + BlocksTaken(directs, old(count), count) == old(spare)
        invariant old(Flat()) <= Flat()
        invariant forall x :: x in old(blocks) && x !in old(Owned()) ==>
                    x in blocks && blocks[x] == old(blocks)[x] && x !in Owned()
        decreases n - count
      {
        var taken := if count == directs then 2 else 1;
        if spare < taken {
          ok := false;
          break;
        }
        AddBlock();
        spare := spare - taken;
      }
    }

    method BlocksNeeded(to: nat) returns (n: nat)
      requires block > 0 && to <= (directs + indirects) * block
      ensures n == BlocksFor(block, to) <= directs + indirects && to <= n * block
    {
      n := to / block;
      if to % block != 0 {
        n := n + 1;
      }
      EnoughBlocks(block, to, directs + indirects);
    }

    /** The file and the disk have room for the positions up to to. */
    ghost predicate Room(to: nat)
      requires block > 0
      reads this`count, this`spare
    {
      to <= (directs + indirects) * block && BlocksTaken(directs, count, BlocksFor(block, to)) <= spare
    }

    /** For what lies in its own blocks a file needs nothing more. */
    lemma RoomInOwnBlocks(to: nat)
      requires Laid() && to <= count * block
      ensures Room(to)
    {
      LeastBlocks(block, to, count);
      MoreBlocks(block, count, directs + indirects);
    }

    /** Blocks for the positions up to to. */
    method Allocate(to: nat) returns (ok: bool)
      requires Valid() && to <= (directs + indirects) * block
      modifies this`blocks, this`direct, this`indirect, this`count, this`spare
      ensures Valid() && (ok ==> to <= count * block) && old(Flat()) <= Flat()
      ensures ok <==> old(Room(to))
      ensures forall x :: x in old(blocks) && x !in old(Owned()) ==>
                x in blocks && blocks[x] == old(blocks)[x] && x !in Owned()
    {
      var numBlock := BlocksNeeded(to);
      ok := MinBlockcount(numBlock);
      if ok { MoreBlocks(block, numBlock, count); }
    }

    method SetSize(n: nat)
      requires Valid() && size <= n <= count * block
      modifies this`size
      ensures Valid() && size == n && Flat() == old(Flat())
    {
      size := n;
      assert forall i, o :: ByteAt(i, o) == old(ByteAt(i, o));
    }

    /** minixfs_write of an inode that exists. A failure leaves every byte and the size alone. */
    method Write(buf: seq<bv8>, off: nat) returns (r: int, newOff: nat)
      requires Valid()
      modifies this
      ensures Valid()
      ensures off + |buf| > (directs + indirects) * block ==> r == -1 && count == old(count) && blocks == old(blocks)
      ensures r == if old(Room(off + |buf|)) then |buf| else -1
      ensures off + |buf| <= old(count) * block ==> r == |buf|
      ensures r == -1 ==> size == old(size) && newOff == off && old(Flat()) <= Flat()
      ensures r != -1 ==>
                && newOff == off + |buf| && size == Max(old(size), off + |buf|)
                && Patched(old(Flat()), Flat(), off, buf)
      ensures forall x :: x in old(blocks) && x !in old(Owned()) ==>
                x in blocks && blocks[x] == old(blocks)[x]
    {
      if off + |buf| <= count * block { RoomInOwnBlocks(off + |buf|); }
      if off + |buf| > (directs + indirects) * block {
        return -1, off;
      }
      var ok := Allocate(off + |buf|);
      if !ok {
        return -1, off;
      }
      WriteBytes(buf, off);
      if off + |buf| > size {
        SetSize(off + |buf|);
      }
      return |buf|, off + |buf|;
    }

    /** The indirect block, needed from the first block on that is not direct. */
    method AddIndirect()
      requires Laid() && count == directs
      modifies this`blocks, this`indirect
      ensures Laid() && HasNumbers() && count == old(count)
      ensures indirect !in old(blocks) && blocks.Keys == old(blocks).Keys + {indirect}
      ensures forall b :: b in old(blocks) ==> blocks[b] == old(blocks)[b]
      ensures forall i, o :: 0 <= i < count && 0 <= o < block ==> ByteAt(i, o) == old(ByteAt(i, o))
      ensures Owned() == old(Owned())
    {
      var b := FreeBlock();
      blocks := blocks[b := Numbers(seq(indirects, _ => 0))];
      indirect := b;
      assert forall i :: 0 <= i < count ==> BlockAt(i) == old(BlockAt(i));
      forall i | 0 <= i < count ensures BlockOk(i) {
        assert old(BlockOk(i));
      }
      forall i, j | 0 <= i < j < count ensures BlockAt(i) != BlockAt(j) {
        assert old(BlockAt(i)) != old(BlockAt(j));
      }
      forall i, o | 0 <= i < count && 0 <= o < block ensures ByteAt(i, o) == old(ByteAt(i, o)) {
        assert old(BlockOk(i)) && old(BlockAt(i)) != b;
      }
    }

    method FreeBlock() returns (b: BlockNumber)
      ensures b !in blocks
    {
      Sets.Unused(blocks.Keys);
      b :| b !in blocks.Keys;
    }
  }
}
