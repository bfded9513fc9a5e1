/**
 * The MourOS pool allocator (src/pool_alloc.c): fixed-size blocks in one
 * backing area, the free ones threaded into a singly linked list through
 * their first word. `take` pops the head of the list and `give` pushes a
 * block back, so blocks come back in LIFO order.
 *
 * A block is named by its index in the backing area: block `i` starts at
 * `backing_mem + i * block_size`, so the pointer arithmetic
 * `curr + block_size` of the initialisation is the step to index `i + 1`.
 * The backing area is an array holding each block's first word, the link
 * (`None` for NULL).
 */
module PoolAlloc {
  import opened Support

  /** `sizeof(uintptr_t)` on the 32-bit Cortex-M targets. */
  const WORD: nat := 4

  /** The indices `lo, lo + 1, ..., hi - 1`. */
  function Range(lo: nat, hi: nat): (r: seq<nat>)
    ensures |r| == if lo <= hi then hi - lo else 0
    ensures forall i :: 0 <= i < |r| ==> r[i] == lo + i
    decreases hi - lo
  {
    if lo >= hi then [] else [lo] + Range(lo + 1, hi)
  }

  /** The indices `k - 1, k - 2, ..., 0`. */
  function Down(k: nat): (r: seq<nat>)
    ensures |r| == k
    ensures forall i :: 0 <= i < k ==> r[i] == k - 1 - i
  {
    if k == 0 then [] else [k - 1] + Down(k - 1)
  }

  /**
   * Following the links in `mem` from `head` visits exactly the blocks
   * `free`, in order, and ends at NULL.
   */
  ghost predicate Chain(mem: seq<Option<nat>>, head: Option<nat>, free: seq<nat>)
    decreases |free|
  {
    if free == [] then head == None
    else head == Some(free[0]) && free[0] < |mem| && Chain(mem, mem[free[0]], free[1..])
  }

  ghost predicate Distinct(free: seq<nat>)
  {
    forall i, j :: 0 <= i < j < |free| ==> free[i] != free[j]
  }

  /** Every block on a chain is a block of the backing area. */
  lemma {:induction false} ChainInBounds(mem: seq<Option<nat>>, head: Option<nat>, free: seq<nat>)
    requires Chain(mem, head, free)
    ensures forall i :: 0 <= i < |free| ==> free[i] < |mem|
    decreases |free|
  {
    if free != [] {
      ChainInBounds(mem, mem[free[0]], free[1..]);
      assert forall i :: 1 <= i < |free| ==> free[i] == free[1..][i - 1];
    }
  }

  /** Writing into a block that is not on a chain leaves the chain intact. */
  lemma {:induction false} ChainFrame(mem: seq<Option<nat>>, head: Option<nat>, free: seq<nat>, k: nat, v: Option<nat>)
    requires Chain(mem, head, free) && k < |mem| && k !in free
    ensures Chain(mem[k := v], head, free)
    decreases |free|
  {
    if free != [] {
      ChainFrame(mem, mem[free[0]], free[1..], k, v);
    }
  }

  /**
   * Blocks `k .. n - 1` each linking to the next and the last to NULL
   * form a chain from block `k`.
   */
  lemma {:induction false} LinkedRun(mem: seq<Option<nat>>, k: nat, n: nat)
    requires k < n <= |mem|
    requires forall i :: 0 <= i < n - 1 ==> mem[i] == Some(i + 1)
    requires mem[n - 1] == None
    ensures Chain(mem, Some(k), Range(k, n))
    decreases n - k
  {
    var r := Range(k, n);
    assert r[0] == k;
    if k + 1 < n {
      LinkedRun(mem, k + 1, n);
      assert r[1..] == Range(k + 1, n);
    } else {
      assert r[1..] == [];
    }
  }

  /** `pool_alloc_t`. */
  class Pool {
    /** The first word of every block of the backing area. */
    var mem: array<Option<nat>>
    /** `block_size`. */
    var blockSize: nat
    /** `first_block`. */
    var first: Option<nat>
    /** The free list, head first. */
    ghost var Free: seq<nat>

    ghost predicate Valid()
      reads this, mem
    {
      Chain(mem[..], first, Free) && Distinct(Free)
    }

    /**
     * `os_pool_alloc_init`: links block `i` to block `i + 1` for every
     * block but the last, which gets NULL, and makes block 0 the head. The
     * block size must hold a pointer (the `cm3_assert`), and the loop bound
     * `num_blocks - 1` needs at least one block.
     */
    constructor Init(backing: array<Option<nat>>, size: nat, numBlocks: nat)
      requires size >= WORD
      requires 1 <= numBlocks <= backing.Length
      modifies backing
      ensures Valid() && mem == backing && blockSize == size
      ensures first == Some(0) && Free == Range(0, numBlocks)
      ensures forall i :: 0 <= i < numBlocks - 1 ==> mem[i] == Some(i + 1)
      ensures mem[numBlocks - 1] == None
    {
      blockSize := size;
      first := Some(0);
      mem := backing;
      var curr := 0;
      for i := 0 to numBlocks - 1
        invariant curr == i
        invariant forall j :: 0 <= j < i ==> backing[j] == Some(j + 1)
      {
        backing[curr] := Some(curr + 1);
        curr := curr + 1;
      }
      backing[curr] := None;
      LinkedRun(backing[..], 0, numBlocks);
      Free := Range(0, numBlocks);
    }

    /**
     * `os_pool_alloc_take`: the head block, the link stored in it becoming
     * the new head; NULL, with nothing changed, when the list is empty.
     */
    method Take() returns (r: Option<nat>)
      requires Valid()
      modifies this`first, this`Free
      ensures Valid()
      ensures r == old(first)
      ensures r.None? <==> old(Free) == []
      ensures r.Some? ==> r.value == old(Free)[0] && Free == old(Free)[1..] && first == mem[r.value]
      ensures r.None? ==> Free == old(Free)
    {
      r := first;
      if r.Some? {
        first := mem[r.value];
        Free := Free[1..];
      }
    }

    /**
     * `os_pool_alloc_give`: stores the old head in `block` and makes
     * `block` the head. The block must be one of the pool's and not
     * already free.
     */
    method Give(block: nat) returns ()
      requires Valid() && block < mem.Length && block !in Free
      modifies this`first, this`Free, mem
      ensures Valid()
      ensures mem[..] == old(mem[..])[block := old(first)]
      ensures first == Some(block) && Free == [block] + old(Free)
    {
      ChainFrame(mem[..], first, Free, block, first);
      mem[block] := first;
      assert mem[..] == old(mem[..])[block := first];
      assert Chain(mem[..], mem[..][block], Free);
      Free := [block] + Free;
      first := Some(block);
      assert Free[1..] == old(Free);
    }
  }

  /** `s` back to front. */
  function Reverse(s: seq<nat>): (r: seq<nat>)
    ensures |r| == |s|
    ensures forall i :: 0 <= i < |s| ==> r[i] == s[|s| - 1 - i]
  {
    if s == [] then [] else [s[|s| - 1]] + Reverse(s[..|s| - 1])
  }

  /** Giving back one more block of a distinct sequence puts a new block in front of the earlier ones. */
  lemma ReverseStep(blocks: seq<nat>, i: nat)
    requires Distinct(blocks) && i < |blocks|
    ensures Reverse(blocks[..i + 1]) == [blocks[i]] + Reverse(blocks[..i])
    ensures blocks[i] !in Reverse(blocks[..i])
  {
    assert blocks[..i + 1][..i] == blocks[..i];
    var r := Reverse(blocks[..i]);
    forall k | 0 <= k < |r|
      ensures r[k] != blocks[i]
    {
      assert r[k] == blocks[i - 1 - k];
    }
  }

  /** Taking until the pool is empty yields the free list, head first. */
  method TakeAll(pool: Pool) returns (taken: seq<nat>)
    requires pool.Valid()
    modifies pool`first, pool`Free
    ensures pool.Valid() && pool.Free == [] && pool.first == None
    ensures taken == old(pool.Free)
  {
    taken := [];
    var r := pool.Take();
    while r.Some?
      invariant pool.Valid()
      invariant r.None? ==> pool.Free == []
      invariant old(pool.Free) == taken + (if r.Some? then [r.value] else []) + pool.Free
      decreases |pool.Free| + (if r.Some? then 1 else 0)
    {
      taken := taken + [r.value];
      r := pool.Take();
    }
    assert taken + [] + [] == taken;
  }

  /** One step of `GiveAll`: block `i` goes in front of the blocks given back before it. */
  method GiveNext(pool: Pool, blocks: seq<nat>, i: nat, ghost free0: seq<nat>)
    requires pool.Valid() && Distinct(blocks) && i < |blocks|
    requires blocks[i] < pool.mem.Length && blocks[i] !in free0
    requires pool.Free == Reverse(blocks[..i]) + free0
    modifies pool`first, pool`Free, pool.mem
    ensures pool.Valid() && pool.Free == Reverse(blocks[..i + 1]) + free0
  {
    ReverseStep(blocks, i);
    pool.Give(blocks[i]);
  }

  /**
   * Giving back distinct blocks that are not free, in order, leaves them
   * on the list in reverse order in front of the blocks that were free.
   */
  method GiveAll(pool: Pool, blocks: seq<nat>)
    requires pool.Valid() && Distinct(blocks)
    requires forall i :: 0 <= i < |blocks| ==> blocks[i] < pool.mem.Length && blocks[i] !in pool.Free
    modifies pool`first, pool`Free, pool.mem
    ensures pool.Valid() && pool.Free == Reverse(blocks) + old(pool.Free)
  {
    for i := 0 to |blocks|
      invariant pool.Valid() && pool.mem == old(pool.mem)
      invariant pool.Free == Reverse(blocks[..i]) + old(pool.Free)
    {
      GiveNext(pool, blocks, i, old(pool.Free));
    }
    assert blocks[..|blocks|] == blocks;
  }

  /**
   * The allocate/free cycle over `n` blocks: taking every block yields
   * blocks `0 .. n - 1` in order and then NULL; after giving them back in
   * that order, taking yields them in reverse and then NULL.
   */
  method AllocDealloc(n: nat) returns (firstRound: seq<nat>, emptyAfterFirst: bool, secondRound: seq<nat>, emptyAfterSecond: bool)
    requires n >= 1
    ensures firstRound == Range(0, n) && emptyAfterFirst
    ensures secondRound == Down(n) && emptyAfterSecond
  {
    var backing := new Option<nat>[n];
    var pool := new Pool.Init(backing, 8, n);
    firstRound := TakeAll(pool);
    var r := pool.Take();
    emptyAfterFirst := r.None?;
    GiveAll(pool, firstRound);
    secondRound := TakeAll(pool);
    assert secondRound == Reverse(Range(0, n)) + [];
    r := pool.Take();
    emptyAfterSecond := r.None?;
  }
}
