/**
 * The Rust pool allocator (rust/src/pool_alloc.rs): the same free list as
 * the C pool, built over a slice of `T` whose elements are the blocks. A
 * block is named by its index in the slice, and each element's first
 * machine word, the link, is an entry of `mem` (`None` for the null
 * pointer).
 */
module RustPool {
  import opened Support
  import opened PoolAlloc

  /** `Pool<'a, T>`. */
  class Pool {
    /** The first word of every element of the backing slice. */
    var mem: array<Option<nat>>
    /** `first_block`. */
    var first: Option<nat>
    /** The free list, head first. */
    ghost var Free: seq<nat>

    ghost predicate Valid()
      reads this, mem
    {
      Chain(mem[..], first, Free) && Distinct(Free)
    }

    /**
     * `Pool::new`: links element `pos` to element `pos + 1` for every
     * element but the last, which gets the null pointer, and makes
     * element 0 the head. `len() - 1` needs a non-empty slice.
     */
    constructor New(backing: array<Option<nat>>)
      requires backing.Length >= 1
      modifies backing
      ensures Valid() && mem == backing
      ensures first == Some(0) && Free == Range(0, backing.Length)
    {
      for pos := 0 to backing.Length - 1
        invariant forall j :: 0 <= j < pos ==> backing[j] == Some(j + 1)
      {
        backing[pos] := Some(pos + 1);
      }
      var last := backing.Length - 1;
      backing[last] := None;
      mem := backing;
      first := Some(0);
      LinkedRun(backing[..], 0, backing.Length);
      Free := Range(0, backing.Length);
    }

    /**
     * `Pool::take`: `Some` of the head element, whose link becomes the
     * new head; `None`, with nothing changed, when the pool is empty.
     */
    method Take() returns (r: Option<nat>)
      requires Valid()
      modifies this`first, this`Free
      ensures Valid()
      ensures r.None? <==> old(Free) == []
      ensures r.Some? ==> r.value == old(Free)[0] && Free == old(Free)[1..] && first == mem[r.value]
      ensures r.None? ==> Free == old(Free) && first == old(first)
    {
      if first.Some? {
        var ret := first.value;
        first := mem[ret];
        Free := Free[1..];
        r := Some(ret);
      } else {
        r := None;
      }
    }

    /**
     * `Pool::give`: makes `block` the head and stores the previous head in
     * it. The block must be an element of this pool that is not free.
     */
    method Give(block: nat)
      requires Valid() && block < mem.Length && block !in Free
      modifies this`first, this`Free, mem
      ensures Valid()
      ensures mem[..] == old(mem[..])[block := old(first)]
      ensures first == Some(block) && Free == [block] + old(Free)
    {
      ChainFrame(mem[..], first, Free, block, first);
      var second := first;
      first := Some(block);
      mem[block] := second;
      assert Chain(mem[..], mem[..][block], Free);
      Free := [block] + Free;
      assert Free[1..] == old(Free);
    }
  }

  /**
   * `Pool::new` over a slice of any length. On an empty slice
   * `backing_mem.len() - 1` underflows and `new` panics before it writes
   * anything (on the subtraction with overflow checks, on `backing_mem[0]`
   * without), so there is no pool; otherwise it is `Pool.New`.
   */
  method TryNew(backing: array<Option<nat>>) returns (r: Option<Pool>)
    modifies backing
    ensures r.None? <==> backing.Length == 0
    ensures r.None? ==> unchanged(backing)
    ensures r.Some? ==> fresh(r.value) && r.value.Valid() && r.value.mem == backing
    ensures r.Some? ==> r.value.first == Some(0) && r.value.Free == Range(0, backing.Length)
  {
    if backing.Length == 0 {
      r := None;
    } else {
      var pool := new Pool.New(backing);
      r := Some(pool);
    }
  }

  /**
   * A new pool over `n` elements hands out elements `0 .. n - 1` in order,
   * then `None`; a block given back is the next one taken.
   */
  method NewTakeGive(n: nat) returns (taken: seq<nat>, afterAll: Option<nat>, again: Option<nat>)
    requires n >= 1
    ensures taken == Range(0, n) && afterAll == None
    ensures again == Some(n - 1)
  {
    var backing := new Option<nat>[n];
    var pool := new Pool.New(backing);
    taken := [];
    for i := 0 to n
      invariant pool.Valid() && pool.mem == backing
      invariant taken == Range(0, i) && pool.Free == Range(i, n)
    {
      var r := pool.Take();
      assert pool.Free == Range(i + 1, n);
      assert Range(0, i + 1) == Range(0, i) + [i];
      taken := taken + [r.value];
    }
    afterAll := pool.Take();
    pool.Give(n - 1);
    again := pool.Take();
  }
}
