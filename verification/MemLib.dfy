/** memlib.c: the simulated memory system under the allocator. */
module MemLib {
  import opened Shape

  const MAX_HEAP: int := 20 * 1048576

  /** Addresses are byte offsets from mem_start_brk; -1 is the (void *)-1 that mem_sbrk returns on failure. */
  class Memory {
    const arena: array<Word>
    var brk: nat
    ghost var refusals: nat   // how often mem_sbrk has failed

    ghost predicate Valid() reads this {
      arena.Length == MAX_HEAP / 4 && brk <= MAX_HEAP
    }

    constructor MemInit()
      ensures Valid() && fresh(arena) && brk == 0 && refusals == 0
    {
      arena := new Word[MAX_HEAP / 4];
      brk, refusals := 0, 0;
    }

    method MemResetBrk()
      requires Valid()
      modifies this
      ensures Valid() && brk == 0 && refusals == old(refusals)
    {
      brk := 0;
    }

    /** The break only grows, and never past the end of the arena. */
    method MemSbrk(incr: int) returns (p: int)
      requires Valid()
      modifies this
      ensures Valid() && old(brk) <= brk
      ensures p == -1 <==> incr < 0 || old(brk) + incr > MAX_HEAP
      ensures p == -1 ==> brk == old(brk)
      ensures refusals == old(refusals) + if p == -1 then 1 else 0
      ensures p != -1 ==> p == old(brk) && brk == old(brk) + incr
    {
      var oldBrk := brk;
      if incr < 0 || brk + incr > MAX_HEAP {
        refusals := refusals + 1;
        return -1;
      }
      brk := brk + incr;
      return oldBrk;
    }
  }
}
