/**
 The pool that XML nodes are allocated from: blocks of equal chunks, and a list of the free ones threaded through the
 chunks themselves.
 */
module MemPools {
  import opened Sequences

  /** What a chunk holds when it is free; while it is in use its memory belongs to the user. */
  class Chunk {
    var next: Chunk?

    constructor ()
    {
      next := null;
    }
  }

  /** From `root` the chunks `free` follow one another, and then nothing. */
  ghost predicate Chain(root: Chunk?, free: seq<Chunk>)
    reads free`next
  {
    && root == (if free == [] then null else free[0])
    && (forall i :: 0 <= i < |free| - 1 ==> free[i].next == free[i + 1])
    && (free != [] ==> free[|free| - 1].next == null)
  }

  class MemPoolT {
    /** Chunks in a block: 4096 bytes' worth, at least one. */
    const count: nat
    var blocks: seq<seq<Chunk>>
    var root: Chunk?
    var currentAllocs: int
    var nAllocs: nat
    var maxAllocs: int
    var nUntracked: int
    ghost var free: seq<Chunk>
    ghost var live: set<Chunk>

    ghost predicate Valid()
      reads this, free`next
    {
      && count > 0
      && Chain(root, free) && NoneTwice(free)
      && (forall i :: 0 <= i < |free| ==> free[i] !in live)
      && currentAllocs == |live| <= maxAllocs
      && |free| + |live| == count * |blocks|
    }

    constructor (size: nat)
      requires 0 < size <= 4 * 1024
      ensures Valid() && live == {} && count == 4 * 1024 / size
    {
      count := 4 * 1024 / size;
      blocks, root, currentAllocs, nAllocs, maxAllocs, nUntracked := [], null, 0, 0, 0, 0;
      free, live := [], {};
    }

    /** Hands out a chunk that is not in use. */
    method Alloc() returns (chunk: Chunk)
      requires Valid()
      modifies this, free`next
      ensures Valid() && chunk !in old(live) && live == old(live) + {chunk}
      ensures if old(root) != null then chunk == old(root) && blocks == old(blocks)
              else fresh(chunk) && |blocks| == |old(blocks)| + 1
      ensures currentAllocs == old(currentAllocs) + 1
      ensures nAllocs == old(nAllocs) + 1 && nUntracked == old(nUntracked) + 1
      ensures maxAllocs == if currentAllocs > old(maxAllocs) then currentAllocs else old(maxAllocs)
    {
      if root == null {
        AddBlock();
      }
      chunk := PopFree();
      nAllocs := nAllocs + 1;
      nUntracked := nUntracked + 1;
    }

    /** Takes the first free chunk. */
    method PopFree() returns (chunk: Chunk)
      requires Valid() && root != null
      modifies this`root, this`free, this`live, this`currentAllocs, this`maxAllocs
      ensures Valid() && chunk == old(root) && chunk !in old(live) && live == old(live) + {chunk}
      ensures currentAllocs == old(currentAllocs) + 1
      ensures maxAllocs == if currentAllocs > old(maxAllocs) then currentAllocs else old(maxAllocs)
    {
      chunk := root;
      root := root.next;
      free, live := free[1..], live + {chunk};
      currentAllocs := currentAllocs + 1;
      if currentAllocs > maxAllocs {
        maxAllocs := currentAllocs;
      }
    }

    /** A new block, all of it free. */
    method AddBlock()
      requires Valid() && root == null
      modifies this`blocks, this`root, this`free
      ensures Valid() && root != null && free != [] && root == free[0] && fresh(free) && |blocks| == |old(blocks)| + 1
    {
      var block := NewChunks(count);
      Thread(block);
      root := block[0];
      CountBlock(count, |blocks|);
      blocks := blocks + [block];
      free := block;
    }

    /** Takes back a chunk in use; nothing is done with a null pointer. */
    method Free(mem: Chunk?)
      requires Valid() && (mem != null ==> mem in live)
      modifies this, (if mem == null then {} else {mem})`next
      ensures Valid() && live == old(live) - {mem}
      ensures currentAllocs == old(currentAllocs) - if mem == null then 0 else 1
      ensures maxAllocs == old(maxAllocs) && blocks == old(blocks) && nUntracked == old(nUntracked)
    {
      if mem == null {
        return;
      }
      currentAllocs := currentAllocs - 1;
      mem.next := root;
      root := mem;
      free, live := [mem] + free, live - {mem};
    }

    method SetTracked()
      requires Valid()
      modifies this`nUntracked
      ensures Valid() && nUntracked == old(nUntracked) - 1
    {
      nUntracked := nUntracked - 1;
    }
  }

  method NewChunks(n: nat) returns (block: seq<Chunk>)
    ensures |block| == n && NoneTwice(block) && fresh(block)
  {
    block := [];
    while |block| < n
      invariant |block| <= n && NoneTwice(block) && fresh(block)
    {
      var chunk := new Chunk();
      assert forall i :: 0 <= i < |block| ==> block[i] != chunk;
      block := block + [chunk];
    }
  }

  /** Links the chunks of a block, each to the one after it. */
  method Thread(block: seq<Chunk>)
    requires block != [] && NoneTwice(block)
    modifies block`next
    ensures Chain(block[0], block)
  {
    for i := 0 to |block| - 1
      invariant forall j :: 0 <= j < i ==> block[j].next == block[j + 1]
    {
      block[i].next := block[i + 1];
    }
    block[|block| - 1].next := null;
  }

  lemma CountBlock(count: nat, blocks: nat)
    ensures count * (blocks + 1) == count * blocks + count
  {
  }
}
