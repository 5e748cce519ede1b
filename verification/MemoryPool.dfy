/**
 The allocator that hands out blocks from chunks of memory, growing the last one in place when it can.
 */
module MemoryPool {
  import opened Numbers

  /** A chunk: where its header is, how many bytes follow the header and how many of them have been handed out. */
  datatype Chunk = Chunk(address: nat, capacity: nat, size: nat)

  /** A block in use, with its size rounded up. */
  datatype Block = Block(address: nat, size: nat)

  const HEADER := 24
  const SIZES := 0x1_0000_0000_0000_0000

  function Align(n: nat): (m: nat)
    ensures m % 8 == 0 && n <= m < n + 8
  {
    (n + 7) / 8 * 8
  }

  lemma {:induction false} AlignTwice(n: nat)
    ensures Align(Align(n)) == Align(n)
  {
  }

  function Data(c: Chunk): nat {
    c.address + HEADER
  }

  /** Two regions have no byte in common. */
  predicate Apart(a: nat, n: nat, b: nat, m: nat) {
    a + n <= b || b + m <= a
  }

  predicate ChunkOk(c: Chunk) {
    c.address > 0 && c.address % 8 == 0 && c.size % 8 == 0 && c.size <= c.capacity
  }

  predicate ChunksApart(c: Chunk, d: Chunk) {
    Apart(c.address, HEADER + c.capacity, d.address, HEADER + d.capacity)
  }

  predicate Chunks(chunks: seq<Chunk>) {
    && (forall i | 0 <= i < |chunks| :: ChunkOk(chunks[i]))
    && (forall i, j | 0 <= i < j < |chunks| :: ChunksApart(chunks[i], chunks[j]))
  }

  predicate BlockOk(b: Block) {
    b.size > 0 && b.address % 8 == 0 && b.size % 8 == 0
  }

  predicate BlocksApart(b: Block, d: Block) {
    Apart(b.address, b.size, d.address, d.size)
  }

  /** The block lies in the part of the chunk that has been handed out. */
  predicate Inside(b: Block, c: Chunk) {
    Data(c) <= b.address && b.address + b.size <= Data(c) + c.size
  }

  predicate HasHome(chunks: seq<Chunk>, b: Block) {
    exists i :: 0 <= i < |chunks| && Inside(b, chunks[i])
  }

  /** All blocks in use are aligned, inside a chunk and apart from each other. */
  predicate Sound(chunks: seq<Chunk>, blocks: seq<Block>) {
    && Chunks(chunks)
    && (forall i | 0 <= i < |blocks| :: BlockOk(blocks[i]) && HasHome(chunks, blocks[i]))
    && (forall i, j | 0 <= i < j < |blocks| :: BlocksApart(blocks[i], blocks[j]))
  }

  /** Another chunk in front. */
  lemma {:induction false} AddChunkSound(chunks: seq<Chunk>, blocks: seq<Block>, c: Chunk)
    requires Sound(chunks, blocks) && ChunkOk(c) && forall d | d in chunks :: ChunksApart(c, d)
    ensures Sound([c] + chunks, blocks)
  {
    var all := [c] + chunks;
    forall i, j | 0 <= i < j < |all| ensures ChunksApart(all[i], all[j]) {
      assert all[j] == chunks[j - 1];
      if i > 0 { assert all[i] == chunks[i - 1]; }
    }
    forall k | 0 <= k < |blocks| ensures HasHome(all, blocks[k]) {
      var i :| 0 <= i < |chunks| && Inside(blocks[k], chunks[i]);
      assert all[i + 1] == chunks[i];
    }
  }

  /** The first chunk with more of it handed out. */
  function Extended(chunks: seq<Chunk>, more: nat): seq<Chunk>
    requires chunks != []
  {
    chunks[0 := Chunk(chunks[0].address, chunks[0].capacity, chunks[0].size + more)]
  }

  lemma {:induction false} ExtendedChunks(chunks: seq<Chunk>, more: nat)
    requires Chunks(chunks) && chunks != [] && more % 8 == 0 && chunks[0].size + more <= chunks[0].capacity
    ensures Chunks(Extended(chunks, more))
  {
    var after := Extended(chunks, more);
    forall i | 0 <= i < |after| ensures ChunkOk(after[i]) {
      assert ChunkOk(chunks[i]);
    }
    forall i, j | 0 <= i < j < |after| ensures ChunksApart(after[i], after[j]) {
      assert ChunksApart(chunks[i], chunks[j]) && after[j] == chunks[j];
    }
  }

  lemma {:induction false} ExtendSound(chunks: seq<Chunk>, blocks: seq<Block>, more: nat)
    requires Sound(chunks, blocks) && chunks != [] && more % 8 == 0 && chunks[0].size + more <= chunks[0].capacity
    ensures Sound(Extended(chunks, more), blocks)
  {
    var after := Extended(chunks, more);
    ExtendedChunks(chunks, more);
    forall k | 0 <= k < |blocks| ensures HasHome(after, blocks[k]) {
      var i :| 0 <= i < |chunks| && Inside(blocks[k], chunks[i]);
      assert Inside(blocks[k], after[i]);
    }
  }

  /** What lies behind all that has been handed out from the first chunk is apart from every block. */
  lemma {:induction false} BehindIsApart(chunks: seq<Chunk>, b: Block, address: nat, size: nat)
    requires Chunks(chunks) && chunks != [] && HasHome(chunks, b)
    requires address >= Data(chunks[0]) + chunks[0].size && address + size <= Data(chunks[0]) + chunks[0].capacity
    ensures BlocksApart(b, Block(address, size))
  {
    var i :| 0 <= i < |chunks| && Inside(b, chunks[i]);
    if i > 0 { assert ChunksApart(chunks[0], chunks[i]); }
  }

  /** A block from the end of what has been handed out. */
  lemma {:induction false} TakeSound(chunks: seq<Chunk>, blocks: seq<Block>, size: nat)
    requires Sound(chunks, blocks) && chunks != [] && size > 0 && size % 8 == 0 && chunks[0].size + size <= chunks[0].capacity
    ensures Sound(Extended(chunks, size), blocks + [Block(Data(chunks[0]) + chunks[0].size, size)])
  {
    var b := Block(Data(chunks[0]) + chunks[0].size, size);
    var all := blocks + [b];
    ExtendSound(chunks, blocks, size);
    assert Inside(b, Extended(chunks, size)[0]);
    forall k | 0 <= k < |blocks| ensures BlocksApart(blocks[k], b) {
      BehindIsApart(chunks, blocks[k], b.address, b.size);
    }
  }

  /** A block that ends where the first chunk has been handed out to lies in that chunk. */
  lemma {:induction false} LastIsInFirst(chunks: seq<Chunk>, b: Block)
    requires Chunks(chunks) && chunks != [] && BlockOk(b) && HasHome(chunks, b)
    requires b.address + b.size == Data(chunks[0]) + chunks[0].size
    ensures Inside(b, chunks[0])
  {
    var i :| 0 <= i < |chunks| && Inside(b, chunks[i]);
    if i > 0 { assert ChunksApart(chunks[0], chunks[i]); }
  }

  /** The last block of the first chunk grows where it is. */
  lemma {:induction false} GrowSound(chunks: seq<Chunk>, blocks: seq<Block>, k: nat, more: nat)
    requires Sound(chunks, blocks) && chunks != [] && k < |blocks| && more % 8 == 0
    requires blocks[k].address + blocks[k].size == Data(chunks[0]) + chunks[0].size && chunks[0].size + more <= chunks[0].capacity
    ensures Sound(Extended(chunks, more), blocks[k := Block(blocks[k].address, blocks[k].size + more)])
  {
    hide Chunks;
    var b := blocks[k];
    var grown := Block(b.address, b.size + more);
    var all := blocks[k := grown];
    ExtendSound(chunks, blocks, more);
    LastIsInFirst(chunks, b);
    assert Inside(grown, Extended(chunks, more)[0]);
    forall i | 0 <= i < |blocks| && i != k ensures BlocksApart(blocks[i], grown) {
      BehindIsApart(chunks, blocks[i], b.address + b.size, more);
      assert if i < k then BlocksApart(blocks[i], blocks[k]) else BlocksApart(blocks[k], blocks[i]);
    }
  }

  /** A block may give up its end. */
  lemma {:induction false} ShrinkSound(chunks: seq<Chunk>, blocks: seq<Block>, k: nat, size: nat)
    requires Sound(chunks, blocks) && k < |blocks| && 0 < size <= blocks[k].size && size % 8 == 0
    ensures Sound(chunks, blocks[k := Block(blocks[k].address, size)])
  {
    var less := Block(blocks[k].address, size);
    var all := blocks[k := less];
    var i :| 0 <= i < |chunks| && Inside(blocks[k], chunks[i]);
    assert Inside(less, chunks[i]);
    forall i, j | 0 <= i < j < |all| ensures BlocksApart(all[i], all[j]) {
      assert BlocksApart(blocks[i], blocks[j]);
    }
  }

  /** A block may be replaced by another that is apart from all. */
  lemma {:induction false} ReplaceSound(chunks: seq<Chunk>, blocks: seq<Block>, k: nat, b: Block)
    requires k < |blocks| && Sound(chunks, blocks + [b])
    ensures Sound(chunks, blocks[k := b])
  {
    var all, now := blocks + [b], blocks[k := b];
    forall i | 0 <= i < |now| ensures BlockOk(now[i]) && HasHome(chunks, now[i]) {
      assert now[i] == all[if i == k then |blocks| else i];
    }
    forall i, j | 0 <= i < j < |now| ensures BlocksApart(now[i], now[j]) {
      if i == k { assert BlocksApart(all[j], all[|blocks|]); }
      else if j == k { assert BlocksApart(all[i], all[|blocks|]); }
      else { assert BlocksApart(all[i], all[j]); }
    }
  }

  /** What the allocator below may answer: null, or memory that is aligned and apart from all chunks. */
  datatype Offer = Refused | Granted(address: nat)

  predicate Fits(chunks: seq<Chunk>, offer: Offer, capacity: nat) {
    offer.Granted? ==>
      && offer.address > 0 && offer.address % 8 == 0 && offer.address + HEADER + capacity < SIZES
      && forall d | d in chunks :: ChunksApart(Chunk(offer.address, capacity, 0), d)
  }

  type Memory = nat -> int

  /** These bytes are now what those were. */
  ghost predicate Copied(now: Memory, was: Memory, to: nat, from: nat, n: nat) {
    forall a: nat | to <= a < to + n :: now(a) == was(a - to + from)
  }

  ghost predicate OnlyThere(now: Memory, was: Memory, to: nat, n: nat) {
    forall a: nat | !(to <= a < to + n) :: now(a) == was(a)
  }

  ghost predicate Kept(now: Memory, was: Memory, b: Block) {
    Copied(now, was, b.address, b.address, b.size)
  }

  /** Writing a block keeps every block that is apart from it. */
  lemma {:induction false} OthersKept(now: Memory, was: Memory, to: nat, n: nat, b: Block)
    requires OnlyThere(now, was, to, n) && BlocksApart(b, Block(to, n))
    ensures Kept(now, was, b)
  {
  }

  lemma {:induction false} AllKept(m: Memory, blocks: seq<Block>)
    ensures forall j | 0 <= j < |blocks| :: Kept(m, m, blocks[j])
  {
  }

  lemma {:induction false} SameBytes(m: Memory, address: nat, n: nat)
    ensures Copied(m, m, address, address, n)
  {
  }

  lemma {:induction false} CopiedLess(now: Memory, was: Memory, to: nat, from: nat, m: nat, n: nat)
    requires Copied(now, was, to, from, m) && n <= m
    ensures Copied(now, was, to, from, n)
  {
  }

  lemma {:induction false} NotNull(chunks: seq<Chunk>, blocks: seq<Block>, k: nat)
    requires Sound(chunks, blocks) && k < |blocks|
    ensures blocks[k].address > 0 && blocks[k].size > 0
  {
    assert HasHome(chunks, blocks[k]);
  }

  class MemoryPoolAllocator {
    /** The head of the list comes first; the user's buffer, if there is one, is last. */
    var chunks: seq<Chunk>
    const chunkCapacity: nat
    const hasUserBuffer: bool
    var memory: Memory
    /** The blocks handed out and in use. */
    ghost var blocks: seq<Block>

    ghost predicate Valid()
      reads this
    {
      Sound(chunks, blocks) && (hasUserBuffer ==> chunks != [])
    }

    constructor (chunkCapacity: nat, memory: Memory)
      ensures Valid() && blocks == [] && chunks == []
    {
      this.chunkCapacity, this.memory, hasUserBuffer := chunkCapacity, memory, false;
      chunks, blocks := [], [];
    }

    constructor WithBuffer(buffer: nat, size: nat, chunkCapacity: nat, memory: Memory)
      requires buffer > 0 && buffer % 8 == 0 && size > HEADER
      ensures Valid() && blocks == [] && chunks == [Chunk(buffer, size - HEADER, 0)] && hasUserBuffer
    {
      this.chunkCapacity, this.memory, hasUserBuffer := chunkCapacity, memory, true;
      chunks, blocks := [Chunk(buffer, size - HEADER, 0)], [];
    }

    /** The sums that the allocator forms can be represented. */
    predicate Representable(size: nat)
      reads this
    {
      Align(size) < SIZES && HEADER + chunkCapacity < SIZES && (chunks != [] ==> chunks[0].size + Align(size) < SIZES)
    }

    function ChunkFor(size: nat): nat {
      if chunkCapacity > Align(size) then chunkCapacity else Align(size)
    }

    /** A new chunk is needed for this many bytes. */
    predicate NeedsChunk(size: nat)
      reads this
    {
      chunks == [] || chunks[0].size + Align(size) > chunks[0].capacity
    }

    /** The chunks after this many bytes are handed out: a new one in front only if the first has no room for them. */
    function Taking(size: nat, offer: Offer): seq<Chunk>
      requires NeedsChunk(size) ==> offer.Granted?
      reads this
    {
      Extended(if NeedsChunk(size) then [Chunk(offer.address, ChunkFor(size), 0)] + chunks else chunks, Align(size))
    }

    method AddChunk(capacity: nat, offer: Offer) returns (ok: bool)
      requires Valid() && Fits(chunks, offer, capacity)
      modifies `chunks
      ensures Valid() && ok == offer.Granted?
      ensures chunks == if ok then [Chunk(offer.address, capacity, 0)] + old(chunks) else old(chunks)
    {
      ok := offer.Granted?;
      if ok {
        AddChunkSound(chunks, blocks, Chunk(offer.address, capacity, 0));
        chunks := [Chunk(offer.address, capacity, 0)] + chunks;
      }
    }

    /** Hands out a block that is apart from all blocks in use, or null if the allocator below refuses. */
    method Malloc(size: nat, offer: Offer) returns (buffer: nat)
      requires Valid() && Representable(size) && Fits(chunks, offer, ChunkFor(size))
      modifies `chunks, `blocks
      ensures Valid()
      ensures buffer == 0 <==> size == 0 || (old(NeedsChunk(size)) && offer.Refused?)
      ensures blocks == if buffer == 0 then old(blocks) else old(blocks) + [Block(buffer, Align(size))]
      ensures chunks == if buffer == 0 then old(chunks) else old(Taking(size, offer))
    {
      if size == 0 { return 0; }
      var n := Align(size);
      if chunks == [] || chunks[0].size + n > chunks[0].capacity {
        var ok := AddChunk(if chunkCapacity > n then chunkCapacity else n, offer);
        if !ok { return 0; }
      }
      TakeSound(chunks, blocks, n);
      buffer := Data(chunks[0]) + chunks[0].size;
      chunks := Extended(chunks, n);
      blocks := blocks + [Block(buffer, n)];
    }

    method Copy(to: nat, from: nat, n: nat)
      requires Apart(to, n, from, n)
      modifies `memory
      ensures Copied(memory, old(memory), to, from, n) && OnlyThere(memory, old(memory), to, n)
    {
      for i := 0 to n
        invariant Copied(memory, old(memory), to, from, i) && OnlyThere(memory, old(memory), to, i)
      {
        var was, x := memory, memory(from + i);
        memory := (a: nat) => if a == to + i then x else was(a);
      }
    }

    /** Copies a block to a new one, which takes its place. */
    method Move(originalPtr: nat, size: nat, newSize: nat, offer: Offer, ghost k: nat) returns (buffer: nat)
      requires Valid() && k < |blocks| && blocks[k] == Block(originalPtr, size) && 0 < size < Align(newSize)
      requires Representable(newSize) && Fits(chunks, offer, ChunkFor(newSize))
      modifies `chunks, `blocks, `memory
      ensures Valid()
      ensures buffer == 0 <==> old(NeedsChunk(newSize)) && offer.Refused?
      ensures chunks == if buffer == 0 then old(chunks) else old(Taking(newSize, offer))
      ensures buffer == 0 ==> blocks == old(blocks) && memory == old(memory)
      ensures buffer != 0 ==> blocks == old(blocks)[k := Block(buffer, Align(newSize))]
      ensures buffer != 0 ==> Copied(memory, old(memory), buffer, originalPtr, size)
      ensures forall j | 0 <= j < |old(blocks)| && j != k :: Kept(memory, old(memory), old(blocks)[j])
    {
      AlignTwice(newSize);
      buffer := Malloc(Align(newSize), offer);
      if buffer != 0 {
        ghost var others, moved := old(blocks), Block(buffer, Align(newSize));
        assert blocks == others + [moved];
        assert BlocksApart(blocks[k], blocks[|others|]);
        Copy(buffer, originalPtr, size);
        forall j | 0 <= j < |others| && j != k ensures Kept(memory, old(memory), others[j]) {
          assert BlocksApart(blocks[j], blocks[|others|]);
          OthersKept(memory, old(memory), buffer, size, others[j]);
        }
        ReplaceSound(chunks, others, k, moved);
        blocks := others[k := moved];
      }
    }

    /** The block `k` is what the caller says it is. */
    ghost predicate Owns(k: nat, originalPtr: nat, originalSize: nat)
      reads this
    {
      originalSize > 0 && k < |blocks| && blocks[k] == Block(originalPtr, Align(originalSize))
    }

    /** The block need not move: it is large enough already, or the last of the first chunk, which has room for it. */
    predicate Stays(originalPtr: nat, originalSize: nat, newSize: nat)
      reads this
    {
      || Align(newSize) <= Align(originalSize)
      || (chunks != [] && originalPtr + Align(originalSize) == Data(chunks[0]) + chunks[0].size
          && originalPtr + Align(newSize) <= Data(chunks[0]) + chunks[0].capacity)
    }

    /**
     Resizes a block, which keeps its contents, whether it stays where it is or moves; no other block and none of its
     contents change. If there is no memory, nothing changes at all. Resizing null is allocating.
     */
    method Realloc(originalPtr: nat, originalSize: nat, newSize: nat, offer: Offer, ghost k: nat) returns (buffer: nat)
      requires Valid() && (originalPtr == 0 || Owns(k, originalPtr, originalSize)) && Representable(newSize)
      requires Fits(chunks, offer, ChunkFor(newSize))
      modifies `chunks, `blocks, `memory
      ensures Valid()
      ensures buffer == 0 <==> (newSize == 0
        || (offer.Refused? && old(NeedsChunk(newSize)) && (originalPtr == 0 || !old(Stays(originalPtr, originalSize, newSize)))))
      ensures buffer == 0 ==> blocks == old(blocks) && memory == old(memory) && chunks == old(chunks)
      ensures buffer != 0 && (originalPtr == 0 || !old(Stays(originalPtr, originalSize, newSize))) ==> chunks == old(Taking(newSize, offer))
      ensures buffer != 0 && originalPtr != 0 && old(Stays(originalPtr, originalSize, newSize)) ==>
        chunks == if Align(newSize) <= Align(originalSize) then old(chunks)
                  else Extended(old(chunks), Align(newSize) - Align(originalSize))
      ensures buffer != 0 && originalPtr == 0 ==> blocks == old(blocks) + [Block(buffer, Align(newSize))] && memory == old(memory)
      ensures buffer != 0 && originalPtr != 0 ==>
        && blocks == old(blocks)[k := Block(buffer, Align(newSize))]
        && Copied(memory, old(memory), buffer, originalPtr, Least(originalSize, newSize))
      ensures newSize != 0 && originalPtr != 0 && old(Stays(originalPtr, originalSize, newSize)) ==> buffer == originalPtr
      ensures forall j | 0 <= j < |old(blocks)| && j != k :: Kept(memory, old(memory), old(blocks)[j])
    {
      hide Sound, Chunks, Copied, Kept, HasHome;
      ghost var before, contents := blocks, memory;
      if originalPtr == 0 {
        buffer := Malloc(newSize, offer);
        AllKept(contents, before);
        return;
      }
      NotNull(chunks, blocks, k);
      if newSize == 0 {
        AllKept(contents, before);
        return 0;
      }
      var was, now := Align(originalSize), Align(newSize);
      if was < now {
        var grown := GrowInPlace(originalPtr, was, now, k);
        if !grown {
          buffer := Move(originalPtr, was, newSize, offer, k);
          if buffer != 0 { CopiedLess(memory, contents, buffer, originalPtr, was, Least(originalSize, newSize)); }
          return;
        }
      } else {
        GiveUpEnd(k, now);
      }
      AllKept(contents, before);
      SameBytes(contents, originalPtr, Least(originalSize, newSize));
      buffer := originalPtr;
    }

    /** The last block of the first chunk grows where it is, if there is room. */
    method GrowInPlace(originalPtr: nat, was: nat, now: nat, ghost k: nat) returns (grown: bool)
      requires Valid() && k < |blocks| && blocks[k] == Block(originalPtr, was) && was < now && now % 8 == 0
      modifies `chunks, `blocks
      ensures Valid()
      ensures grown == old(chunks != [] && originalPtr + was == Data(chunks[0]) + chunks[0].size
                           && originalPtr + now <= Data(chunks[0]) + chunks[0].capacity)
      ensures blocks == if grown then old(blocks)[k := Block(originalPtr, now)] else old(blocks)
      ensures chunks == if grown then Extended(old(chunks), now - was) else old(chunks)
    {
      assert HasHome(chunks, blocks[k]) && BlockOk(blocks[k]);
      grown := false;
      if originalPtr + was == Data(chunks[0]) + chunks[0].size {
        var increment := now - was;
        if chunks[0].size + increment <= chunks[0].capacity {
          GrowSound(chunks, blocks, k, increment);
          chunks := Extended(chunks, increment);
          blocks := blocks[k := Block(originalPtr, now)];
          grown := true;
        }
      }
    }

    /** The caller uses less of a block; nothing is done about it. */
    ghost method GiveUpEnd(k: nat, now: nat)
      requires Valid() && k < |blocks| && 0 < now <= blocks[k].size && now % 8 == 0
      modifies `blocks
      ensures Valid() && blocks == old(blocks)[k := Block(old(blocks)[k].address, now)]
    {
      ShrinkSound(chunks, blocks, k, now);
      blocks := blocks[k := Block(blocks[k].address, now)];
    }

    /** Gives all chunks back but the user's. */
    method Clear()
      requires Valid()
      modifies `chunks, `blocks
      ensures Valid() && blocks == []
      ensures if hasUserBuffer then chunks == [old(chunks)[|old(chunks)| - 1].(size := 0)] else chunks == []
    {
      blocks := [];
      while chunks != [] && !(hasUserBuffer && |chunks| == 1)
        invariant Valid() && blocks == []
        invariant |chunks| <= |old(chunks)| && chunks == old(chunks)[|old(chunks)| - |chunks|..]
        decreases |chunks|
      {
        chunks := chunks[1..];
      }
      if chunks != [] {
        chunks := [Chunk(chunks[0].address, chunks[0].capacity, 0)];
      }
    }
  }
}
