/**
 The memory pool of the bundled JSON library: blocks are cut from the front of a list of chunks and are never freed
 one by one. Addresses are integers, 0 is the null pointer, and what the base allocator answers is a parameter.
 */
module PoolAllocator {

  // The aligned size of a chunk header.
  const HEADER := 24

  // The least multiple of 8 that is not less.
  function Align(n: nat): (r: nat)
    ensures n <= r < n + 8 && r % 8 == 0
  {
    (n + 7) / 8 * 8
  }

  datatype Area = Area(base: nat, capacity: nat, size: nat) {
    function Data(): nat { base + HEADER }

    function Top(): nat { base + HEADER + size }

    function End(): nat { base + HEADER + capacity }
  }

  // A block that was handed out and not taken back by Clear.
  datatype Block = Block(address: nat, length: nat) {
    function End(): nat { address + length }
  }

  // The areas are in the order of the list; with a user buffer, that is the last one.
  datatype Pool = Pool(chunkCapacity: nat, userBuffer: bool, areas: seq<Area>, blocks: seq<Block>, memory: nat -> bv8)

  // --------------------------------------------------------------------------
  // What every pool keeps

  predicate Apart(a: Area, b: Area) { a.End() <= b.base || b.End() <= a.base }

  predicate Separate(x: Block, y: Block) { x.End() <= y.address || y.End() <= x.address }

  // The block lies in the used part of the chunk, at a multiple of 8 from its start.
  predicate Holds(a: Area, b: Block) {
    a.Data() <= b.address && b.End() <= a.Top() && (b.address - a.base) % 8 == 0
  }

  ghost predicate Housed(areas: seq<Area>, b: Block) {
    exists i :: 0 <= i < |areas| && Holds(areas[i], b)
  }

  ghost predicate AreasSound(areas: seq<Area>) {
    && (forall i :: 0 <= i < |areas| ==>
          0 < areas[i].base && areas[i].size <= areas[i].capacity && areas[i].size % 8 == 0)
    && forall i, j :: 0 <= i < j < |areas| ==> Apart(areas[i], areas[j])
  }

  ghost predicate AllHoused(areas: seq<Area>, blocks: seq<Block>) {
    forall k :: 0 <= k < |blocks| ==> blocks[k].length > 0 && blocks[k].length % 8 == 0 && Housed(areas, blocks[k])
  }

  ghost predicate AllSeparate(blocks: seq<Block>) {
    forall k, l :: 0 <= k < l < |blocks| ==> Separate(blocks[k], blocks[l])
  }

  function Used(areas: seq<Area>): nat { if areas == [] then 0 else areas[0].size + Used(areas[1..]) }

  function Total(blocks: seq<Block>): nat {
    if blocks == [] then 0 else Total(blocks[..|blocks| - 1]) + blocks[|blocks| - 1].length
  }

  // The chunks do not overlap and are not overfull; every block lies in the used part of a chunk, with a length and a
  // distance from its start that are multiples of 8; no two blocks overlap; and the used bytes are exactly those of the
  // blocks.
  ghost predicate PartsSound(areas: seq<Area>, blocks: seq<Block>) {
    && AreasSound(areas)
    && AllHoused(areas, blocks)
    && AllSeparate(blocks)
    && Used(areas) == Total(blocks)
  }

  ghost predicate Sound(p: Pool) {
    PartsSound(p.areas, p.blocks) && (p.userBuffer ==> p.areas != [])
  }

  // --------------------------------------------------------------------------
  // The operations

  datatype Outcome = Outcome(pool: Pool, result: nat)

  predicate NeedsChunk(p: Pool, n: nat) { p.areas == [] || p.areas[0].size + n > p.areas[0].capacity }

  function NewCapacity(p: Pool, n: nat): nat { if p.chunkCapacity > n then p.chunkCapacity else n }

  function AddChunk(p: Pool, capacity: nat, base: nat): Pool {
    p.(areas := [Area(base, capacity, 0)] + p.areas)
  }

  // Cuts a block off the head chunk.
  function Take(p: Pool, n: nat): Outcome
    requires p.areas != []
  {
    var head := p.areas[0];
    Outcome(p.(areas := p.areas[0 := head.(size := head.size + n)], blocks := p.blocks + [Block(head.Top(), n)]),
            head.Top())
  }

  function Malloc(p: Pool, size: nat, offer: nat): Outcome {
    var n := Align(size);
    if size == 0 then Outcome(p, 0)
    else if !NeedsChunk(p, n) then Take(p, n)
    else if offer == 0 then Outcome(p, 0)
    else Take(AddChunk(p, NewCapacity(p, n), offer), n)
  }

  // What the base allocator may answer to the request that a Malloc makes, if it makes one: nothing, or room that
  // overlaps no chunk.
  ghost predicate MayOffer(p: Pool, size: nat, offer: nat) {
    var n := Align(size);
    size > 0 && NeedsChunk(p, n) && offer != 0 ==> Unclaimed(p.areas, Area(offer, NewCapacity(p, n), 0))
  }

  ghost predicate Unclaimed(areas: seq<Area>, a: Area) {
    forall i :: 0 <= i < |areas| ==> Apart(a, areas[i])
  }

  function IndexOf(blocks: seq<Block>, address: nat): (k: nat)
    ensures k <= |blocks|
    ensures k < |blocks| <==> exists i :: 0 <= i < |blocks| && blocks[i].address == address
    ensures k < |blocks| ==> blocks[k].address == address
  {
    if blocks == [] || blocks[0].address == address then 0
    else
      assert forall i :: 0 < i < |blocks| ==> blocks[i] == blocks[1..][i - 1];
      assert forall i :: 0 <= i < |blocks[1..]| ==> blocks[1..][i] == blocks[i + 1];
      1 + IndexOf(blocks[1..], address)
  }

  // Makes block k longer where it is.
  function Grow(p: Pool, k: nat, more: nat, n: nat): Pool
    requires p.areas != [] && k < |p.blocks|
  {
    var head := p.areas[0];
    p.(areas := p.areas[0 := head.(size := head.size + more)], blocks := p.blocks[k := p.blocks[k].(length := n)])
  }

  function Copied(memory: nat -> bv8, from: nat, to: nat, n: nat): nat -> bv8 {
    if n == 0 then memory
    else (a: nat) => if to <= a < to + n then memory(from + (a - to)) else memory(a)
  }

  // What a caller may pass to Realloc: a null pointer, or a block with no more than its length.
  predicate MayResize(p: Pool, pointer: nat, size: nat) {
    || pointer == 0
    || (IndexOf(p.blocks, pointer) < |p.blocks| && Align(size) <= p.blocks[IndexOf(p.blocks, pointer)].length)
  }

  predicate InPlace(p: Pool, pointer: nat, size: nat, newSize: nat) {
    && p.areas != []
    && pointer + size == p.areas[0].Top()
    && p.areas[0].size + (newSize - size) <= p.areas[0].capacity
  }

  function Realloc(p: Pool, pointer: nat, size: nat, newSize: nat, offer: nat): Outcome
    requires MayResize(p, pointer, size)
  {
    var o, n := Align(size), Align(newSize);
    if pointer == 0 then Malloc(p, newSize, offer)
    else if newSize == 0 then Outcome(p, 0)
    else if o >= n then Outcome(p, pointer)
    else if InPlace(p, pointer, o, n) then Outcome(Grow(p, IndexOf(p.blocks, pointer), n - o, n), pointer)
    else
      var out := Malloc(p, n, offer);
      if out.result == 0 then out
      else out.(pool := out.pool.(memory := Copied(out.pool.memory, pointer, out.result, o)))
  }

  // Gives all chunks back, the user buffer excepted.
  function Clear(p: Pool): Pool
    requires p.userBuffer ==> p.areas != []
  {
    p.(areas := if p.userBuffer then [p.areas[|p.areas| - 1].(size := 0)] else [], blocks := [])
  }

  // --------------------------------------------------------------------------
  // Soundness of the parts

  lemma {:induction false} TotalAppend(blocks: seq<Block>, b: Block)
    ensures Total(blocks + [b]) == Total(blocks) + b.length
  {
    assert (blocks + [b])[..|blocks|] == blocks;
  }

  lemma {:induction false} TotalUpdate(blocks: seq<Block>, k: nat, b: Block)
    requires k < |blocks|
    ensures Total(blocks[k := b]) == Total(blocks) - blocks[k].length + b.length
  {
    var last := |blocks| - 1;
    if k == last {
      assert blocks[k := b][..last] == blocks[..last];
    } else {
      assert blocks[k := b][..last] == blocks[..last][k := b];
      TotalUpdate(blocks[..last], k, b);
    }
  }

  lemma UsedHead(areas: seq<Area>, a: Area)
    requires areas != []
    ensures Used(areas[0 := a]) == Used(areas) - areas[0].size + a.size
  {
    assert areas[0 := a][1..] == areas[1..];
  }

  lemma HousedStays(areas: seq<Area>, a: Area, b: Block)
    requires areas != [] && a.base == areas[0].base && a.size >= areas[0].size && Housed(areas, b)
    ensures Housed(areas[0 := a], b)
  {
    var i :| 0 <= i < |areas| && Holds(areas[i], b);
    assert Holds(areas[0 := a][i], b);
  }

  lemma HousedInHead(areas: seq<Area>, b: Block)
    requires areas != [] && Holds(areas[0], b)
    ensures Housed(areas, b)
  {}

  // A block is below the top of the head chunk, or apart from the whole of that chunk.
  lemma AwayFromTop(areas: seq<Area>, b: Block)
    requires AreasSound(areas) && areas != [] && Housed(areas, b)
    ensures Holds(areas[0], b) || b.End() <= areas[0].base || areas[0].End() < b.address
  {
    var i :| 0 <= i < |areas| && Holds(areas[i], b);
    if i > 0 {
      assert Apart(areas[0], areas[i]);
    }
  }

  lemma TakeAreas(areas: seq<Area>, n: nat)
    requires AreasSound(areas) && areas != [] && areas[0].size + n <= areas[0].capacity && n % 8 == 0
    ensures AreasSound(areas[0 := areas[0].(size := areas[0].size + n)])
  {
    var after := areas[0 := areas[0].(size := areas[0].size + n)];
    forall i, j | 0 <= i < j < |after|
      ensures Apart(after[i], after[j])
    {
      assert Apart(areas[i], areas[j]);
    }
  }

  lemma TakeHouses(areas: seq<Area>, blocks: seq<Block>, n: nat)
    requires AllHoused(areas, blocks) && areas != [] && n > 0 && n % 8 == 0 && areas[0].size % 8 == 0
    ensures var head := areas[0];
      AllHoused(areas[0 := head.(size := head.size + n)], blocks + [Block(head.Top(), n)])
  {
    var head := areas[0].(size := areas[0].size + n);
    forall k | 0 <= k < |blocks|
      ensures Housed(areas[0 := head], blocks[k])
    {
      HousedStays(areas, head, blocks[k]);
    }
    HousedInHead(areas[0 := head], Block(areas[0].Top(), n));
    hide Housed;
  }

  lemma TakeSeparates(areas: seq<Area>, blocks: seq<Block>, n: nat)
    requires AreasSound(areas) && AllHoused(areas, blocks) && AllSeparate(blocks)
    requires areas != [] && areas[0].size + n <= areas[0].capacity
    ensures AllSeparate(blocks + [Block(areas[0].Top(), n)])
  {
    hide Housed;
    forall k | 0 <= k < |blocks|
      ensures Separate(blocks[k], Block(areas[0].Top(), n))
    {
      AwayFromTop(areas, blocks[k]);
    }
  }

  // A pool without blocks, on no chunk or on one.
  lemma FreshIsSound(p: Pool)
    requires p.blocks == [] && |p.areas| <= 1 && (p.userBuffer ==> p.areas != [])
    requires p.areas != [] ==> p.areas[0].base > 0 && p.areas[0].size == 0
    ensures Sound(p)
  {
    assert p.areas != [] ==> p.areas[1..] == [];
  }

  lemma TakePartsSound(areas: seq<Area>, blocks: seq<Block>, n: nat)
    requires PartsSound(areas, blocks) && areas != [] && areas[0].size + n <= areas[0].capacity
    requires n > 0 && n % 8 == 0
    ensures var head := areas[0];
      PartsSound(areas[0 := head.(size := head.size + n)], blocks + [Block(head.Top(), n)])
  {
    var head := areas[0];
    assert head.size % 8 == 0;
    hide Used, Total, AllHoused, AllSeparate, AreasSound;
    TakeAreas(areas, n);
    UsedHead(areas, head.(size := head.size + n));
    TotalAppend(blocks, Block(head.Top(), n));
    TakeHouses(areas, blocks, n);
    TakeSeparates(areas, blocks, n);
  }

  lemma TakeIsSound(p: Pool, n: nat)
    requires Sound(p) && !NeedsChunk(p, n) && n > 0 && n % 8 == 0
    ensures Sound(Take(p, n).pool)
  {
    hide PartsSound;
    TakePartsSound(p.areas, p.blocks, n);
  }

  lemma AddChunkIsSound(p: Pool, capacity: nat, base: nat)
    requires Sound(p) && base > 0 && Unclaimed(p.areas, Area(base, capacity, 0))
    ensures Sound(AddChunk(p, capacity, base))
  {
    var after := AddChunk(p, capacity, base);
    assert after.areas[1..] == p.areas;
    forall k | 0 <= k < |p.blocks|
      ensures Housed(after.areas, p.blocks[k])
    {
      var i :| 0 <= i < |p.areas| && Holds(p.areas[i], p.blocks[k]);
      assert after.areas[i + 1] == p.areas[i];
    }
  }

  // No block but k lies at or above the start of k in the chunk, so k can become longer up to the end of the chunk.
  ghost predicate LastOf(a: Area, blocks: seq<Block>, k: nat)
    requires k < |blocks|
  {
    forall l :: 0 <= l < |blocks| && l != k ==>
      (blocks[l].End() <= blocks[k].address || a.End() < blocks[l].address)
  }

  // If the address test for growing in place succeeds, the block is the last one of the head chunk and the size
  // passed is its whole length, wherever the other chunks lie in memory.
  lemma InPlaceIsLast(p: Pool, k: nat, o: nat)
    requires Sound(p) && k < |p.blocks| && p.areas != [] && o <= p.blocks[k].length
    requires p.blocks[k].address + o == p.areas[0].Top()
    ensures o == p.blocks[k].length && Holds(p.areas[0], p.blocks[k])
    ensures LastOf(p.areas[0], p.blocks, k)
  {
    hide Housed, Used, Total;
    AwayFromTop(p.areas, p.blocks[k]);
    forall l | 0 <= l < |p.blocks| && l != k
      ensures p.blocks[l].End() <= p.blocks[k].address || p.areas[0].End() < p.blocks[l].address
    {
      AwayFromTop(p.areas, p.blocks[l]);
      if l < k {
        assert Separate(p.blocks[l], p.blocks[k]);
      } else {
        assert Separate(p.blocks[k], p.blocks[l]);
      }
    }
  }

  lemma LongerIsSeparate(a: Area, blocks: seq<Block>, k: nat, b: Block)
    requires k < |blocks| && LastOf(a, blocks, k) && b.address == blocks[k].address && b.End() <= a.End()
    requires AllSeparate(blocks)
    ensures AllSeparate(blocks[k := b])
  {
    var after := blocks[k := b];
    forall i, j | 0 <= i < j < |blocks|
      ensures Separate(after[i], after[j])
    {
      assert Separate(blocks[i], blocks[j]);
    }
  }

  lemma LongerIsHoused(areas: seq<Area>, blocks: seq<Block>, k: nat, head: Area, b: Block)
    requires AllHoused(areas, blocks) && areas != [] && k < |blocks| && Holds(head, b)
    requires b.length > 0 && b.length % 8 == 0
    requires head.base == areas[0].base && head.size >= areas[0].size
    ensures AllHoused(areas[0 := head], blocks[k := b])
  {
    hide Housed;
    var after := blocks[k := b];
    forall l | 0 <= l < |blocks|
      ensures Housed(areas[0 := head], after[l])
    {
      if l == k {
        HousedInHead(areas[0 := head], b);
      } else {
        HousedStays(areas, head, blocks[l]);
      }
    }
  }

  lemma HoldsLonger(a: Area, b: Block, n: nat)
    requires Holds(a, b) && b.End() == a.Top() && n >= b.length
    ensures Holds(a.(size := a.size + (n - b.length)), b.(length := n))
  {}

  lemma GrowIsSound(p: Pool, k: nat, o: nat, n: nat)
    requires Sound(p) && k < |p.blocks| && o <= p.blocks[k].length && o < n
    requires InPlace(p, p.blocks[k].address, o, n) && n % 8 == 0
    ensures Sound(Grow(p, k, n - o, n)) && o == p.blocks[k].length
  {
    hide Used, Total, AreasSound, LastOf, AllSeparate, AllHoused, Holds, Housed;
    var after := Grow(p, k, n - o, n);
    InPlaceIsLast(p, k, o);
    BlocksAreAligned(p, k);
    HoldsLonger(p.areas[0], p.blocks[k], n);
    TakeAreas(p.areas, n - o);
    UsedHead(p.areas, after.areas[0]);
    TotalUpdate(p.blocks, k, after.blocks[k]);
    LongerIsSeparate(p.areas[0], p.blocks, k, after.blocks[k]);
    LongerIsHoused(p.areas, p.blocks, k, after.areas[0], after.blocks[k]);
  }

  // --------------------------------------------------------------------------
  // Malloc and Realloc

  // Malloc gives a block of its own, at least as long as asked, at the top of the head chunk or, if that has no room,
  // in a new chunk; it fails only if it must, and then changes nothing.
  lemma MallocIsSafe(p: Pool, size: nat, offer: nat)
    requires Sound(p) && MayOffer(p, size, offer)
    ensures var out := Malloc(p, size, offer);
      && Sound(out.pool)
      && out.pool.memory == p.memory
      && var room := p.areas != [] && p.areas[0].size + Align(size) <= p.areas[0].capacity;
      && (out.result == 0 <==> size == 0 || (!room && offer == 0))
      && (out.result == 0 ==> out.pool == p)
      && (out.result != 0 ==> out.pool.blocks == p.blocks + [Block(out.result, Align(size))])
      && (out.result != 0 && room ==>
           && out.result == p.areas[0].base + 24 + p.areas[0].size
           && |out.pool.areas| == |p.areas| && out.pool.areas[1..] == p.areas[1..])
      && (out.result != 0 && !room ==>
           && out.result == offer + 24 && out.pool.areas[1..] == p.areas && out.pool.areas[0].base == offer
           && out.pool.areas[0].capacity == if p.chunkCapacity > Align(size) then p.chunkCapacity else Align(size))
      && (BasesAligned(p.areas) && offer % 8 == 0 ==> out.result % 8 == 0 && BasesAligned(out.pool.areas))
  {
    var n := Align(size);
    hide Sound, Align, Unclaimed;
    if size > 0 && !NeedsChunk(p, n) {
      TakeIsSound(p, n);
    } else if size > 0 && offer != 0 {
      AddChunkIsSound(p, NewCapacity(p, n), offer);
      TakeIsSound(AddChunk(p, NewCapacity(p, n), offer), n);
    }
    if BasesAligned(p.areas) && offer % 8 == 0 {
      MallocIsAligned(p, size, offer);
    }
  }

  // All chunks are at multiples of 8, as the base allocator places them.
  ghost predicate BasesAligned(areas: seq<Area>) {
    forall i :: 0 <= i < |areas| ==> areas[i].base % 8 == 0
  }

  lemma MallocIsAligned(p: Pool, size: nat, offer: nat)
    requires Sound(p) && BasesAligned(p.areas) && offer % 8 == 0
    ensures var out := Malloc(p, size, offer); BasesAligned(out.pool.areas) && out.result % 8 == 0
  {
    assert p.areas != [] ==> p.areas[0].size % 8 == 0;
    hide Align;
  }

  // Every block lies behind the header of its chunk and within the chunk's capacity.
  lemma BlockIsPlaced(p: Pool, k: nat)
    requires Sound(p) && k < |p.blocks|
    ensures exists i ::
      && 0 <= i < |p.areas|
      && p.areas[i].base + 24 <= p.blocks[k].address
      && p.blocks[k].address + p.blocks[k].length <= p.areas[i].base + 24 + p.areas[i].capacity
  {
    var i :| 0 <= i < |p.areas| && Holds(p.areas[i], p.blocks[k]);
    hide Used, Total, AllHoused, AllSeparate;
    assert p.areas[i].size <= p.areas[i].capacity;
  }

  // Then so are all blocks, and their lengths are multiples of 8 anyway.
  lemma BlocksAreAligned(p: Pool, k: nat)
    requires Sound(p) && k < |p.blocks|
    ensures p.blocks[k].length % 8 == 0
    ensures BasesAligned(p.areas) ==> p.blocks[k].address % 8 == 0
  {
    assert Housed(p.areas, p.blocks[k]);
    hide Used, Total, AreasSound;
  }

  ghost predicate SameBytes(memory: nat -> bv8, memory': nat -> bv8, b: Block) {
    forall a :: b.address <= a < b.End() ==> memory'(a) == memory(a)
  }

  // Blocks stay where they are, none gets shorter, and none changes its bytes.
  ghost predicate BlocksKept(p: Pool, p': Pool) {
    && |p.blocks| <= |p'.blocks|
    && forall k :: 0 <= k < |p.blocks| ==>
      && p'.blocks[k].address == p.blocks[k].address
      && p'.blocks[k].length >= p.blocks[k].length
      && SameBytes(p.memory, p'.memory, p.blocks[k])
  }

  lemma AlignTwice(n: nat)
    ensures Align(Align(n)) == Align(n)
  {}

  // No two blocks have the same address.
  lemma IndexOfBlock(p: Pool, k: nat)
    requires Sound(p) && k < |p.blocks|
    ensures IndexOf(p.blocks, p.blocks[k].address) == k
  {
    var i := IndexOf(p.blocks, p.blocks[k].address);
    hide Used, Total, Housed, AreasSound;
    assert i < k ==> Separate(p.blocks[i], p.blocks[k]);
    assert k < i ==> Separate(p.blocks[k], p.blocks[i]);
  }

  // A copy into the newest block changes no other block.
  lemma CopyKeeps(p: Pool, k: nat, from: nat, o: nat)
    requires Sound(p) && k < |p.blocks| - 1 && o <= p.blocks[|p.blocks| - 1].length
    ensures SameBytes(p.memory, Copied(p.memory, from, p.blocks[|p.blocks| - 1].address, o), p.blocks[k])
    ensures Separate(p.blocks[k], p.blocks[|p.blocks| - 1])
  {
    assert Separate(p.blocks[k], p.blocks[|p.blocks| - 1]);
  }

  // The outcome of a Realloc that succeeds: the block that was at the pointer is now at the result, long enough, and
  // with the same bytes at its start; if it has moved, the source and the target of the copy do not overlap.
  ghost predicate Resized(p: Pool, pointer: nat, size: nat, newSize: nat, out: Outcome) {
    && (exists k :: 0 <= k < |out.pool.blocks| && BlockAt(out.pool.blocks, k, out.result, newSize))
    && (forall a :: pointer <= a < pointer + size ==> out.pool.memory(out.result + (a - pointer)) == p.memory(a))
    && (out.result != pointer ==> Separate(Block(out.result, size), Block(pointer, size)))
  }

  predicate BlockAt(blocks: seq<Block>, k: nat, address: nat, size: nat) {
    k < |blocks| && blocks[k].address == address && blocks[k].length >= size
  }

  lemma SoundIgnoresMemory(p: Pool, p': Pool)
    requires Sound(p) && p' == p.(memory := p'.memory)
    ensures Sound(p')
  {}

  // Copying the start of block k into a block that was just cut off.
  lemma MoveIsSafe(p: Pool, got: Pool, k: nat, o: nat, q: nat, n: nat, newSize: nat)
    requires Sound(got) && got.blocks == p.blocks + [Block(q, n)] && got.memory == p.memory
    requires k < |p.blocks| && o <= p.blocks[k].length && o <= n && newSize <= n
    ensures var pointer := p.blocks[k].address;
      var out := Outcome(got.(memory := Copied(p.memory, pointer, q, o)), q);
      Sound(out.pool) && BlocksKept(p, out.pool) && Resized(p, pointer, o, newSize, out)
  {
    hide Sound, SameBytes;
    var pointer := p.blocks[k].address;
    var moved := got.(memory := Copied(p.memory, pointer, q, o));
    SoundIgnoresMemory(got, moved);
    forall l | 0 <= l < |p.blocks|
      ensures SameBytes(p.memory, moved.memory, p.blocks[l])
    {
      CopyKeeps(got, l, pointer, o);
    }
    CopyKeeps(got, k, pointer, o);
    assert BlockAt(moved.blocks, |p.blocks|, q, newSize);
  }

  lemma KeepsItself(p: Pool)
    ensures BlocksKept(p, p)
  {}

  lemma GrowKeeps(p: Pool, k: nat, more: nat, n: nat)
    requires p.areas != [] && k < |p.blocks| && n >= p.blocks[k].length
    ensures BlocksKept(p, Grow(p, k, more, n)) && Grow(p, k, more, n).memory == p.memory
    ensures BlockAt(Grow(p, k, more, n).blocks, k, p.blocks[k].address, n) && OthersSame(p, Grow(p, k, more, n), k)
  {}

  // No block but k is changed.
  ghost predicate OthersSame(p: Pool, p': Pool, k: nat) {
    |p.blocks| <= |p'.blocks| && forall l :: 0 <= l < |p.blocks| && l != k ==> p'.blocks[l] == p.blocks[l]
  }

  lemma BlockIsNotNull(p: Pool, k: nat)
    requires Sound(p) && k < |p.blocks|
    ensures p.blocks[k].address > 0
  {
    assert Housed(p.areas, p.blocks[k]);
  }

  // A caller that passes the address of its block and no more than the block's length may resize it: the address tells
  // the block from all others. Realloc keeps every block, changes the description of none but this one, and fails only
  // if Malloc does, without changing anything.
  lemma ReallocIsSafe(p: Pool, k: nat, size: nat, newSize: nat, offer: nat)
    requires Sound(p) && k < |p.blocks| && Align(size) <= p.blocks[k].length && newSize > 0
    requires MayOffer(p, newSize, offer)
    ensures var pointer := p.blocks[k].address;
      && pointer != 0 && MayResize(p, pointer, size)
      && var out := Realloc(p, pointer, size, newSize, offer);
         && Sound(out.pool)
         && BlocksKept(p, out.pool) && OthersSame(p, out.pool, k)
         && (out.result == 0 ==> out.pool == p && Malloc(p, newSize, offer).result == 0)
         && (Align(size) >= Align(newSize) ==> out == Outcome(p, pointer))
         && (&& p.areas != []
             && pointer + Align(size) == p.areas[0].base + 24 + p.areas[0].size
             && p.areas[0].size + (Align(newSize) - Align(size)) <= p.areas[0].capacity
             ==> out.result == pointer)
         && (out.result != 0 ==> Resized(p, pointer, Align(size), newSize, out))
         && (BasesAligned(p.areas) && offer % 8 == 0 ==> out.result % 8 == 0)
  {
    hide PartsSound, Grow, BlocksKept, BasesAligned;
    BlocksAreAligned(p, k);
    AlignTwice(newSize);
    IndexOfBlock(p, k);
    BlockIsNotNull(p, k);
    var pointer, o, n := p.blocks[k].address, Align(size), Align(newSize);
    var out := Realloc(p, pointer, size, newSize, offer);
    MallocIsSafe(p, n, offer);
    KeepsItself(p);
    assert Malloc(p, n, offer) == Malloc(p, newSize, offer);
    if o >= n {
      assert BlockAt(p.blocks, k, pointer, newSize);
    } else if InPlace(p, pointer, o, n) {
      GrowIsSound(p, k, o, n);
      GrowKeeps(p, k, n - o, n);
      assert BlockAt(out.pool.blocks, k, pointer, newSize);
    } else if Malloc(p, n, offer).result != 0 {
      MoveIsSafe(p, Malloc(p, n, offer).pool, k, o, out.result, n, newSize);
    }
  }

  // --------------------------------------------------------------------------
  // Whole runs

  // What a client does: it asks for blocks, and stores bytes in the blocks it has.
  datatype Call =
    | CallMalloc(size: nat, offer: nat)
    | CallRealloc(pointer: nat, oldSize: nat, newSize: nat, offer: nat)
    | Store(address: nat, value: bv8)
    | CallClear

  ghost predicate InSomeBlock(blocks: seq<Block>, address: nat) {
    exists k :: 0 <= k < |blocks| && blocks[k].address <= address < blocks[k].End()
  }

  ghost predicate Legal(p: Pool, call: Call) {
    match call
    case CallMalloc(size, offer) => MayOffer(p, size, offer)
    case CallRealloc(pointer, oldSize, newSize, offer) =>
      MayResize(p, pointer, oldSize) && MayOffer(p, newSize, offer)
    case Store(address, value) => InSomeBlock(p.blocks, address)
    case CallClear => p.userBuffer ==> p.areas != []
  }

  function Stored(memory: nat -> bv8, address: nat, value: bv8): nat -> bv8 {
    (a: nat) => if a == address then value else memory(a)
  }

  ghost function Step(p: Pool, call: Call): Pool
    requires Legal(p, call)
  {
    match call
    case CallMalloc(size, offer) => Malloc(p, size, offer).pool
    case CallRealloc(pointer, oldSize, newSize, offer) => Realloc(p, pointer, oldSize, newSize, offer).pool
    case Store(address, value) => p.(memory := Stored(p.memory, address, value))
    case CallClear => Clear(p)
  }

  ghost predicate LegalRun(p: Pool, calls: seq<Call>)
    decreases |calls|
  {
    calls != [] ==> Legal(p, calls[0]) && LegalRun(Step(p, calls[0]), calls[1..])
  }

  ghost function Run(p: Pool, calls: seq<Call>): Pool
    requires LegalRun(p, calls)
    decreases |calls|
  {
    if calls == [] then p else Run(Step(p, calls[0]), calls[1..])
  }

  lemma ClearIsSound(p: Pool)
    requires Sound(p)
    ensures Sound(Clear(p)) && Clear(p).blocks == [] && Clear(p).memory == p.memory
    ensures !p.userBuffer ==> Clear(p).areas == []
    ensures p.userBuffer ==>
      var buffer := p.areas[|p.areas| - 1];
      Clear(p).areas == [Area(buffer.base, buffer.capacity, 0)]
  {
    if p.userBuffer {
      assert Clear(p).areas[1..] == [];
    }
  }

  lemma StepIsSound(p: Pool, call: Call)
    requires Sound(p) && Legal(p, call)
    ensures Sound(Step(p, call))
    ensures !call.Store? && !call.CallClear? ==> BlocksKept(p, Step(p, call))
  {
    hide PartsSound, Realloc, Malloc, Clear;
    match call
    case CallMalloc(size, offer) => MallocIsSafe(p, size, offer);
    case CallRealloc(pointer, oldSize, newSize, offer) =>
      KeepsItself(p);
      if pointer == 0 {
        ReallocOfNull(p, oldSize, newSize, offer);
        MallocIsSafe(p, newSize, offer);
      } else if newSize == 0 {
        ReallocToNothing(p, pointer, oldSize, offer);
      } else {
        ReallocIsSafe(p, IndexOf(p.blocks, pointer), oldSize, newSize, offer);
      }
    case Store(address, value) =>
    case CallClear => ClearIsSound(p);
  }

  lemma ReallocOfNull(p: Pool, size: nat, newSize: nat, offer: nat)
    ensures Realloc(p, 0, size, newSize, offer) == Malloc(p, newSize, offer)
  {}

  // Unlike std::realloc, this takes nothing back.
  lemma ReallocToNothing(p: Pool, pointer: nat, size: nat, offer: nat)
    requires MayResize(p, pointer, size) && pointer != 0
    ensures Realloc(p, pointer, size, 0, offer) == Outcome(p, 0)
  {}

  lemma ReallocStays(p: Pool, pointer: nat, size: nat, newSize: nat, offer: nat)
    requires MayResize(p, pointer, size) && pointer != 0 && newSize > 0 && Align(size) >= Align(newSize)
    ensures Realloc(p, pointer, size, newSize, offer) == Outcome(p, pointer)
  {}

  lemma ReallocGrows(p: Pool, pointer: nat, size: nat, newSize: nat, offer: nat)
    requires MayResize(p, pointer, size) && pointer != 0 && newSize > 0 && Align(size) < Align(newSize)
    requires InPlace(p, pointer, Align(size), Align(newSize))
    ensures Realloc(p, pointer, size, newSize, offer)
         == Outcome(Grow(p, IndexOf(p.blocks, pointer), Align(newSize) - Align(size), Align(newSize)), pointer)
  {}

  lemma ReallocMoves(p: Pool, pointer: nat, size: nat, newSize: nat, offer: nat)
    requires MayResize(p, pointer, size) && pointer != 0 && newSize > 0 && Align(size) < Align(newSize)
    requires !InPlace(p, pointer, Align(size), Align(newSize))
    ensures var got := Malloc(p, Align(newSize), offer);
      Realloc(p, pointer, size, newSize, offer)
      == if got.result == 0 then got
         else got.(pool := got.pool.(memory := Copied(got.pool.memory, pointer, got.result, Align(size))))
  {}

  // Whatever a client asks for, in whatever order, and whatever room the base allocator finds, the pool is sound.
  lemma {:induction false} RunIsSound(p: Pool, calls: seq<Call>)
    requires Sound(p) && LegalRun(p, calls)
    ensures Sound(Run(p, calls))
    decreases |calls|
  {
    if calls != [] {
      StepIsSound(p, calls[0]);
      RunIsSound(Step(p, calls[0]), calls[1..]);
    }
  }

  // The base allocator answers with multiples of 8.
  predicate OffersAligned(call: Call) {
    match call
    case CallMalloc(_, offer) => offer % 8 == 0
    case CallRealloc(_, _, _, offer) => offer % 8 == 0
    case _ => true
  }

  lemma ReallocIsAligned(p: Pool, pointer: nat, size: nat, newSize: nat, offer: nat)
    requires Sound(p) && BasesAligned(p.areas) && offer % 8 == 0 && MayResize(p, pointer, size)
    ensures BasesAligned(Realloc(p, pointer, size, newSize, offer).pool.areas)
  {
    MallocIsAligned(p, newSize, offer);
    MallocIsAligned(p, Align(newSize), offer);
    hide Align, Malloc, PartsSound, IndexOf;
  }

  lemma StepIsAligned(p: Pool, call: Call)
    requires Sound(p) && Legal(p, call) && BasesAligned(p.areas) && OffersAligned(call)
    ensures BasesAligned(Step(p, call).areas)
  {
    match call
    case CallMalloc(size, offer) => MallocIsAligned(p, size, offer);
    case CallRealloc(pointer, oldSize, newSize, offer) => ReallocIsAligned(p, pointer, oldSize, newSize, offer);
    case _ =>
  }

  // In every run on chunks at multiples of 8, every block is at one, and its length is one.
  lemma {:induction false} RunIsAligned(p: Pool, calls: seq<Call>)
    requires Sound(p) && LegalRun(p, calls) && BasesAligned(p.areas) && forall c <- calls :: OffersAligned(c)
    ensures var q := Run(p, calls);
      && BasesAligned(q.areas)
      && forall k :: 0 <= k < |q.blocks| ==> q.blocks[k].address % 8 == 0 && q.blocks[k].length % 8 == 0
    decreases |calls|
  {
    hide Sound, BasesAligned;
    if calls == [] {
      forall k | 0 <= k < |p.blocks|
        ensures p.blocks[k].address % 8 == 0 && p.blocks[k].length % 8 == 0
      {
        BlocksAreAligned(p, k);
      }
    } else {
      StepIsSound(p, calls[0]);
      StepIsAligned(p, calls[0]);
      RunIsAligned(Step(p, calls[0]), calls[1..]);
    }
  }

  // The calls neither clear the pool nor store at the address.
  predicate LeaveAlone(calls: seq<Call>, address: nat) {
    forall i :: 0 <= i < |calls| ==> !calls[i].CallClear? && (calls[i].Store? ==> calls[i].address != address)
  }

  lemma LeaveAloneParts(calls: seq<Call>, address: nat)
    requires LeaveAlone(calls, address) && calls != []
    ensures LeaveAlone([calls[0]], address) && LeaveAlone(calls[1..], address)
  {}

  lemma StepKeepsByte(p: Pool, call: Call, k: nat, address: nat)
    requires Sound(p) && Legal(p, call) && LeaveAlone([call], address)
    requires k < |p.blocks| && p.blocks[k].address <= address < p.blocks[k].End()
    ensures var p' := Step(p, call);
      k < |p'.blocks| && p'.blocks[k].address == p.blocks[k].address && p'.blocks[k].length >= p.blocks[k].length
      && p'.memory(address) == p.memory(address)
  {
    hide Sound, Malloc, Realloc, Clear;
    assert [call][0] == call;
    StepIsSound(p, call);
    if !call.Store? {
      assert SameBytes(p.memory, Step(p, call).memory, p.blocks[k]);
    }
  }

  // A byte of a block stays what the client stored in it until the client stores there again or clears the pool.
  lemma {:induction false} RunKeepsBytes(p: Pool, calls: seq<Call>, k: nat, address: nat)
    requires Sound(p) && LegalRun(p, calls) && LeaveAlone(calls, address)
    requires k < |p.blocks| && p.blocks[k].address <= address < p.blocks[k].End()
    ensures var p' := Run(p, calls);
      k < |p'.blocks| && p'.blocks[k].address == p.blocks[k].address && p'.blocks[k].length >= p.blocks[k].length
      && p'.memory(address) == p.memory(address)
    decreases |calls|
  {
    if calls != [] {
      hide Sound, BlocksKept, Step, Legal, LeaveAlone;
      LeaveAloneParts(calls, address);
      StepIsSound(p, calls[0]);
      StepKeepsByte(p, calls[0], k, address);
      RunKeepsBytes(Step(p, calls[0]), calls[1..], k, address);
    }
  }

  // What the client has stored in a byte of a block is there until the client stores there again or clears the pool.
  lemma RunKeepsStored(p: Pool, address: nat, value: bv8, calls: seq<Call>)
    requires Sound(p) && Legal(p, Store(address, value))
    requires LegalRun(Step(p, Store(address, value)), calls) && LeaveAlone(calls, address)
    ensures Run(Step(p, Store(address, value)), calls).memory(address) == value
    ensures forall a :: a != address ==> Step(p, Store(address, value)).memory(a) == p.memory(a)
  {
    var q := Step(p, Store(address, value));
    var k :| 0 <= k < |p.blocks| && p.blocks[k].address <= address < p.blocks[k].End();
    StepIsSound(p, Store(address, value));
    hide Sound, Run, LegalRun;
    RunKeepsBytes(q, calls, k, address);
  }
}
