/**
 The allocator of the bundled JSON library over its linked list of chunks, each operation proved against the pool
 that the list stands for.
 */
module Allocators {
  import opened PoolAllocator

  // A chunk's header. Its fields lie in memory in front of the blocks, where no block is.
  class Chunk {
    const base: nat
    const capacity: nat
    var size: nat
    var next: Chunk?

    constructor (base: nat, capacity: nat, next: Chunk?)
      ensures this.base == base && this.capacity == capacity && size == 0 && this.next == next
    {
      this.base, this.capacity, size, this.next := base, capacity, 0, next;
    }

    ghost function View(): Area
      reads this
    {
      Area(base, capacity, size)
    }
  }

  ghost function AreasOf(chunks: seq<Chunk>): (areas: seq<Area>)
    reads chunks
    ensures |areas| == |chunks|
    ensures forall i :: 0 <= i < |chunks| ==> areas[i] == chunks[i].View()
  {
    if chunks == [] then [] else [chunks[0].View()] + AreasOf(chunks[1..])
  }

  // The list from the head on is exactly these chunks.
  ghost predicate IsList(head: Chunk?, chunks: seq<Chunk>)
    reads chunks
  {
    && (head == null <==> chunks == [])
    && (chunks != [] ==> head == chunks[0] && chunks[0] !in chunks[1..] && IsList(head.next, chunks[1..]))
  }

  lemma HeadOfList(head: Chunk?, chunks: seq<Chunk>)
    requires IsList(head, chunks)
    ensures head == null <==> chunks == []
    ensures head != null ==> head == chunks[0] && AreasOf(chunks)[0] == head.View() && IsList(head.next, chunks[1..])
  {}

  // Adds to the size of the head chunk.
  method Advance(head: Chunk, ghost chunks: seq<Chunk>, n: nat)
    requires IsList(head, chunks)
    modifies head
    ensures IsList(head, chunks)
    ensures AreasOf(chunks) == old(AreasOf(chunks))[0 := old(head.View()).(size := old(head.size) + n)]
  {
    head.size := head.size + n;
    assert AreasOf(chunks[1..]) == old(AreasOf(chunks[1..]));
  }

  lemma PushedAreas(chunk: Chunk, chunks: seq<Chunk>)
    requires chunk !in chunks && chunk.next == (if chunks == [] then null else chunks[0])
    requires IsList(chunk.next, chunks)
    ensures IsList(chunk, [chunk] + chunks)
    ensures AreasOf([chunk] + chunks) == [chunk.View()] + AreasOf(chunks)
  {
    assert ([chunk] + chunks)[1..] == chunks;
  }

  class MemoryPoolAllocator {
    var chunkHead: Chunk?
    const chunkCapacity: nat
    const userBuffer: Chunk?
    var memory: nat -> bv8
    ghost var chunks: seq<Chunk>
    ghost var blocks: seq<Block>

    ghost function View(): Pool
      reads this, chunks
    {
      Pool(chunkCapacity, userBuffer != null, AreasOf(chunks), blocks, memory)
    }

    ghost predicate Valid()
      reads this, chunks
    {
      && IsList(chunkHead, chunks)
      && Sound(View())
      && (userBuffer != null ==> chunks != [] && chunks[|chunks| - 1] == userBuffer)
    }

    constructor (chunkCapacity: nat, memory: nat -> bv8)
      ensures Valid() && View() == Pool(chunkCapacity, false, [], [], memory)
    {
      this.chunkCapacity, this.memory, userBuffer := chunkCapacity, memory, null;
      chunkHead, chunks, blocks := null, [], [];
      new;
      FreshIsSound(View());
    }

    constructor WithBuffer(buffer: nat, size: nat, chunkCapacity: nat, memory: nat -> bv8)
      requires buffer != 0 && size > HEADER
      ensures Valid() && fresh(chunks)
      ensures View() == Pool(chunkCapacity, true, [Area(buffer, size - HEADER, 0)], [], memory)
    {
      var chunk := new Chunk(buffer, size - HEADER, null);
      this.chunkCapacity, this.memory, userBuffer := chunkCapacity, memory, chunk;
      chunkHead, chunks, blocks := chunk, [chunk], [];
      new;
      PushedAreas(chunk, []);
      assert [chunk] + [] == [chunk];
      FreshIsSound(View());
    }

    method Capacity() returns (capacity: nat)
      requires Valid()
      ensures capacity == TotalCapacity(View().areas)
    {
      capacity := 0;
      var c := chunkHead;
      ghost var rest := chunks;
      while c != null
        invariant IsList(c, rest) && (forall x <- rest :: x in chunks)
        invariant capacity + TotalCapacity(AreasOf(rest)) == TotalCapacity(AreasOf(chunks))
        decreases |rest|
      {
        assert AreasOf(rest)[1..] == AreasOf(rest[1..]);
        capacity := capacity + c.capacity;
        c, rest := c.next, rest[1..];
      }
    }

    // The used bytes are those of the blocks handed out.
    method Size() returns (size: nat)
      requires Valid()
      ensures size == Total(blocks)
    {
      size := 0;
      var c := chunkHead;
      ghost var rest := chunks;
      while c != null
        invariant IsList(c, rest) && (forall x <- rest :: x in chunks)
        invariant size + Used(AreasOf(rest)) == Used(AreasOf(chunks))
        decreases |rest|
      {
        assert AreasOf(rest)[1..] == AreasOf(rest[1..]);
        size := size + c.size;
        c, rest := c.next, rest[1..];
      }
    }

    // The base allocator's answer is the address of the new chunk, or null.
    method AddChunk(capacity: nat, answer: nat) returns (ok: bool)
      requires Valid() && (answer != 0 ==> Unclaimed(View().areas, Area(answer, capacity, 0)))
      modifies this
      ensures Valid() && ok == (answer != 0)
      ensures View() == if ok then PoolAllocator.AddChunk(old(View()), capacity, answer) else old(View())
      ensures forall c <- chunks :: c in old(chunks) || fresh(c)
    {
      hide Sound, Unclaimed, IsList, AreasOf;
      ok := answer != 0;
      if ok {
        AddChunkIsSound(View(), capacity, answer);
        HeadOfList(chunkHead, chunks);
        var chunk := new Chunk(answer, capacity, chunkHead);
        PushedAreas(chunk, chunks);
        chunkHead, chunks := chunk, [chunk] + chunks;
      }
    }

    method Malloc(size: nat, answer: nat) returns (buffer: nat)
      requires Valid() && MayOffer(View(), size, answer)
      modifies this, chunks
      ensures Valid() && Outcome(View(), buffer) == PoolAllocator.Malloc(old(View()), size, answer)
      ensures forall c <- chunks :: c in old(chunks) || fresh(c)
    {
      hide Sound, Unclaimed, IsList, AreasOf;
      if size == 0 {
        return 0;
      }
      var n := Align(size);
      HeadOfList(chunkHead, chunks);
      if chunkHead == null || chunkHead.size + n > chunkHead.capacity {
        var ok := AddChunk(if chunkCapacity > n then chunkCapacity else n, answer);
        if !ok {
          return 0;
        }
        HeadOfList(chunkHead, chunks);
      }
      assert chunks[0] in chunks;
      buffer := Cut(n);
    }

    // Cuts a block off the head chunk, which has room for it.
    method Cut(n: nat) returns (buffer: nat)
      requires Valid() && !NeedsChunk(View(), n) && n > 0 && n % 8 == 0
      modifies this, chunkHead
      ensures Valid() && Outcome(View(), buffer) == Take(old(View()), n) && chunks == old(chunks)
    {
      hide Sound, IsList, AreasOf;
      HeadOfList(chunkHead, chunks);
      TakeIsSound(View(), n);
      buffer := chunkHead.base + HEADER + chunkHead.size;
      Advance(chunkHead, chunks, n);
      blocks := blocks + [Block(buffer, n)];
    }

    // The blocks' lengths are known to the proof only: a caller passes its pointer and the size it knows of.
    method Realloc(pointer: nat, size: nat, newSize: nat, answer: nat) returns (buffer: nat)
      requires Valid() && MayResize(View(), pointer, size) && MayOffer(View(), newSize, answer)
      modifies this, chunks
      ensures Valid() && Outcome(View(), buffer) == PoolAllocator.Realloc(old(View()), pointer, size, newSize, answer)
      ensures forall c <- chunks :: c in old(chunks) || fresh(c)
    {
      hide Sound, Unclaimed, IsList, AreasOf, IndexOf, PoolAllocator.Realloc, PoolAllocator.Malloc;
      if pointer == 0 {
        ReallocOfNull(View(), size, newSize, answer);
        buffer := Malloc(newSize, answer);
        return;
      }
      if newSize == 0 {
        ReallocToNothing(View(), pointer, size, answer);
        return 0;
      }
      var o, n := Align(size), Align(newSize);
      if o >= n {
        ReallocStays(View(), pointer, size, newSize, answer);
        return pointer;
      }
      HeadOfList(chunkHead, chunks);
      if chunkHead != null && pointer + o == chunkHead.base + HEADER + chunkHead.size {
        if chunkHead.size + (n - o) <= chunkHead.capacity {
          ReallocGrows(View(), pointer, size, newSize, answer);
          Extend(IndexOf(blocks, pointer), o, n);
          return pointer;
        }
      }
      ReallocMoves(View(), pointer, size, newSize, answer);
      AlignTwice(newSize);
      buffer := Malloc(n, answer);
      if buffer != 0 && o != 0 {
        SoundIgnoresMemory(View(), View().(memory := Copied(memory, pointer, buffer, o)));
        memory := Copied(memory, pointer, buffer, o);
      }
    }

    method Extend(ghost k: nat, o: nat, n: nat)
      requires Valid() && k < |blocks| && o <= blocks[k].length && o < n
      requires InPlace(View(), blocks[k].address, o, n) && n % 8 == 0
      modifies this, chunks
      ensures Valid() && View() == Grow(old(View()), k, n - o, n) && chunks == old(chunks)
    {
      hide Sound, IsList, AreasOf;
      HeadOfList(chunkHead, chunks);
      GrowIsSound(View(), k, o, n);
      Advance(chunkHead, chunks, n - o);
      blocks := blocks[k := blocks[k].(length := n)];
    }

    // The chunks that are given back are those that the base allocator gave, the newest first.
    method Clear() returns (freed: seq<nat>)
      requires Valid()
      modifies this, chunks
      ensures Valid() && View() == PoolAllocator.Clear(old(View()))
      ensures userBuffer == null ==> freed == Bases(old(View()).areas)
      ensures userBuffer != null ==> freed + [userBuffer.base] == Bases(old(View()).areas)
    {
      hide Sound, AreasOf, IsList;
      ClearIsSound(View());
      freed := FreeChunks();
      HeadOfList(chunkHead, chunks);
      blocks := [];
      if chunkHead != null && chunkHead == userBuffer {
        OnlyUserBuffer(userBuffer, chunks);
        chunkHead.size := 0;
        SingleList(userBuffer);
      }
    }

    // Takes the chunks off the list up to the user buffer.
    method FreeChunks() returns (freed: seq<nat>)
      requires IsList(chunkHead, chunks)
      requires userBuffer != null ==> chunks != [] && chunks[|chunks| - 1] == userBuffer
      modifies this`chunkHead, this`chunks
      ensures IsList(chunkHead, chunks) && (chunkHead == null || chunkHead == userBuffer)
      ensures userBuffer != null ==> chunks != [] && chunks[|chunks| - 1] == userBuffer
      ensures |freed| + |chunks| == |old(chunks)| && chunks == old(chunks)[|freed|..]
      ensures forall i :: 0 <= i < |freed| ==> freed[i] == old(chunks)[i].base
    {
      hide AreasOf, IsList;
      freed := [];
      while chunkHead != null && chunkHead != userBuffer
        invariant |freed| + |chunks| == |old(chunks)| && chunks == old(chunks)[|freed|..] && IsList(chunkHead, chunks)
        invariant userBuffer != null ==> chunks != [] && chunks[|chunks| - 1] == userBuffer
        invariant forall i :: 0 <= i < |freed| ==> freed[i] == old(chunks)[i].base
        decreases |chunks|
      {
        HeadOfList(chunkHead, chunks);
        var next := chunkHead.next;
        freed := freed + [chunkHead.base];
        chunkHead, chunks := next, chunks[1..];
      }
    }
  }

  // The buffer is the first chunk of the list only if it is the whole list.
  lemma OnlyUserBuffer(userBuffer: Chunk, chunks: seq<Chunk>)
    requires IsList(userBuffer, chunks) && chunks[|chunks| - 1] == userBuffer
    ensures chunks == [userBuffer] && userBuffer.next == null
  {}

  lemma SingleList(chunk: Chunk)
    requires chunk.next == null
    ensures IsList(chunk, [chunk]) && AreasOf([chunk]) == [chunk.View()]
  {}

  function TotalCapacity(areas: seq<Area>): nat {
    if areas == [] then 0 else areas[0].capacity + TotalCapacity(areas[1..])
  }

  function Bases(areas: seq<Area>): seq<nat> {
    seq(|areas|, i requires 0 <= i < |areas| => areas[i].base)
  }
}
