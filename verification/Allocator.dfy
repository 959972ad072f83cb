/** mm.c: the explicit-free-list allocator, operating in place on the arena of memlib.c. */
module Allocator {
  import opened Sequences
  import opened Shape
  import opened ShapeLemmas
  import opened CoalesceLemmas
  import opened PlaceLemmas
  import opened ReallocLemmas
  import opened Bytes
  import opened MemLib

  /** size | alloc, for a size that is a multiple of 8. */
  function Pack(size: int, alloc: int): int { size + alloc }

  const CHUNKSIZE: int := 4096

  /** The block size for a request: room for two tags, rounded up to 8, in 32-bit unsigned arithmetic. */
  function AdjustedSize(size: int): int
    requires 0 <= size < 0x1_0000_0000
  {
    if size <= 8 then 16 else 8 * ((size + 15) % 0x1_0000_0000 / 8)
  }

  /** Adding the overhead does not wrap around. */
  predicate NoWrap(size: int) { 0 <= size <= 0xFFFF_FFF0 }

  /** The adjusted size leaves room for the request exactly when the addition does not wrap. */
  lemma AdjustedHoldsRequest(size: int)
    requires 0 <= size < 0x1_0000_0000
    ensures size <= AdjustedSize(size) - 8 <==> NoWrap(size)
    ensures NoWrap(size) ==> AdjustedSize(size) % 8 == 0 && 16 <= AdjustedSize(size) <= 0x1_0000_0000 - 8
    ensures NoWrap(size) && size > 8 ==> AdjustedSize(size) < size + 16
  {
  }

  function Least(a: int, b: int): int { if a < b then a else b }
  function Most(a: int, b: int): int { if a > b then a else b }

  /** extend_heap rounds up to an even number of words. */
  function Even2(words: int): int { if words % 2 == 1 then words + 1 else words }

  /** mem_sbrk refuses n more words: the size is negative as an int, or the arena is used up. */
  predicate Refused(top: int, n: int) {
    4 * n >= 0x8000_0000 || 4 * (top + n) > MAX_HEAP
  }

  /** What extend_heap does to tiling and list: a free block of n words at the old break, coalesced. */
  ghost predicate Extends(blk: Blocks, top: int, free: seq<int>, n: int, bp: int, blk': Blocks, free': seq<int>)
    requires 0 <= n && top != PROLOGUE && Tiled(Grown(blk, top, n), top + n)
  {
    var g := Grown(blk, top, n);
    bp == RunLo(g, top + n, top) && blk' == Merged(g, top + n, top) && free' == MergedList(g, top + n, free, top)
  }

  /** What is left at the end of the grown heap has room for all the new words. */
  lemma ExtendedFits(blk: Blocks, top: int, free: seq<int>, n: int, bp: int, blk': Blocks, free': seq<int>)
    requires Tiled(blk, top) && MINIMUM <= n && top != PROLOGUE && Tiled(Grown(blk, top, n), top + n)
    requires Extends(blk, top, free, n, bp, blk', free')
    ensures bp in free' && bp in blk' && n <= blk'[bp].n && End(blk', bp) == top + n
    ensures FreeTail(blk, top, bp) && OthersStay(blk, blk', bp)
  {
    GrownBlock(blk, top, n, bp, blk');
    hide Tiled, RunLo, Merged, MergedList, FreeTail, OthersStay;
  }

  /** How a call of mm_realloc ends. */
  datatype Outcome =
    | Returned(p: int)     // with this pointer, possibly NULL
    | Exits                // "mm_malloc failed in mm_realloc"
    | CallsLibcFree        // a request of 0 bytes goes to free of the C library, not to mm_free
    | BadFree(p: int)      // mm_free is about to be handed p, which is no block of any heap

  /** The branch of mm_realloc that grows the heap: the last block must grow, and the one below is no help. */
  ghost predicate GrowBranch(blk: Blocks, top: int, ptr: int, k: int)
    requires Tiled(blk, top) && Live(blk, ptr)
  {
    && blk[ptr].n < k && End(blk, ptr) == top
    && (blk[Prev(blk, top, ptr)].alloc || blk[Prev(blk, top, ptr)].n < k - blk[ptr].n)
  }

  lemma WholeWords(n: int)
    requires n % 8 == 0
    ensures 4 * (n / 4) == n
  {
    assert n == 4 * (2 * (n / 8));
  }

  /** The free words right above block ptr. */
  ghost function Above(blk: Blocks, ptr: int): nat requires ptr in blk {
    var next := End(blk, ptr);
    if next in blk && !blk[next].alloc then blk[next].n else 0
  }

  /** The free words right below it. */
  ghost function Below(blk: Blocks, top: int, ptr: int): nat requires Tiled(blk, top) && Live(blk, ptr) {
    var prev := Prev(blk, top, ptr);
    if blk[prev].alloc then 0 else blk[prev].n
  }

  /** What block ptr can reach by taking in free neighbours, as mm_realloc tries them. */
  ghost predicate NeighboursSuffice(blk: Blocks, top: int, ptr: int, k: int)
    requires Tiled(blk, top) && Live(blk, ptr)
  {
    blk[ptr].n < k && k - blk[ptr].n <= Below(blk, top, ptr) + Above(blk, ptr)
  }

  /** g has one block from lo to hi, and elsewhere the blocks of blk. */
  ghost predicate OneRun(blk: Blocks, g: Blocks, lo: int, hi: int, alloc: bool) {
    && lo in g && g[lo].alloc == alloc && End(g, lo) == hi
    && (forall a :: a in blk && !(lo <= a < hi) ==> a in g && g[a] == blk[a])
    && (forall a :: a in g && a != lo ==> a in blk && !(lo <= a < hi))
  }

  lemma FreedBounds(blk: Blocks, top: int, bp: int)
    requires Tiled(blk, top) && Live(blk, bp) && Tiled(Freed(blk, bp), top)
    ensures bp in Freed(blk, bp) && RunLo(Freed(blk, bp), top, bp) == bp - Below(blk, top, bp)
    ensures bp < RunHi(Freed(blk, bp), bp) == End(blk, bp) + Above(blk, bp)
  {
    var g := Freed(blk, bp);
    PrevUnique(g, top, Prev(g, top, bp), Prev(blk, top, bp));
    hide Prev, Tiled;
  }

  lemma FusedRun(blk: Blocks, bp: int, lo: int, hi: int)
    requires bp in blk && lo <= bp < hi
    ensures OneRun(blk, Fused(Freed(blk, bp), lo, hi, false), lo, hi, false)
  {
  }

  /** What mm_free leaves: the block and the free words on both sides of it are one free block, which heads the list. */
  lemma FreedRun(blk: Blocks, top: int, free: seq<int>, bp: int)
    requires Tiled(blk, top) && Live(blk, bp) && Tiled(Freed(blk, bp), top)
    ensures OneRun(blk, Merged(Freed(blk, bp), top, bp), bp - Below(blk, top, bp), End(blk, bp) + Above(blk, bp), false)
    ensures var list := MergedList(Freed(blk, bp), top, free, bp); list != [] && list[0] == bp - Below(blk, top, bp)
  {
    assert bp in blk && bp != PROLOGUE;
    hide *;
    FreedBounds(blk, top, bp);
    FusedRun(blk, bp, RunLo(Freed(blk, bp), top, bp), RunHi(Freed(blk, bp), bp));
  }

  /** How block ptr grows into its neighbours: into the one above if that is enough, else into the one below if
      that is enough, else into both. */
  ghost predicate TakesIn(blk: Blocks, top: int, ptr: int, k: int, g: Blocks, o: Outcome)
    requires Tiled(blk, top) && Live(blk, ptr)
  {
    var need, below, above := k - blk[ptr].n, Below(blk, top, ptr), Above(blk, ptr);
    && (0 < need <= above ==> o == Returned(ptr) && OneRun(blk, g, ptr, End(blk, ptr) + above, true))
    && (above < need <= below ==> o == Returned(ptr - below) && OneRun(blk, g, ptr - below, End(blk, ptr), true))
    && (above < need && below < need <= below + above ==>
          o == Returned(ptr - below) && OneRun(blk, g, ptr - below, End(blk, ptr) + above, true))
  }

  lemma TakesBelow(blk: Blocks, top: int, ptr: int, k: int)
    requires Tiled(blk, top) && Live(blk, ptr) && Above(blk, ptr) < k - blk[ptr].n <= Below(blk, top, ptr)
    ensures Prev(blk, top, ptr) <= End(blk, ptr)
    ensures TakesIn(blk, top, ptr, k, Fused(blk, Prev(blk, top, ptr), End(blk, ptr), true), Returned(Prev(blk, top, ptr)))
  {
  }

  lemma TakesBoth(blk: Blocks, top: int, ptr: int, k: int)
    requires Tiled(blk, top) && Live(blk, ptr) && Above(blk, ptr) < k - blk[ptr].n && Below(blk, top, ptr) < k - blk[ptr].n
    requires k - blk[ptr].n <= Below(blk, top, ptr) + Above(blk, ptr)
    ensures End(blk, ptr) in blk && Prev(blk, top, ptr) <= End(blk, End(blk, ptr))
    ensures TakesIn(blk, top, ptr, k, Fused(blk, Prev(blk, top, ptr), End(blk, End(blk, ptr)), true), Returned(Prev(blk, top, ptr)))
  {
  }

  /** The branch that moves the block elsewhere. */
  ghost predicate MoveBranch(blk: Blocks, top: int, ptr: int, k: int)
    requires Tiled(blk, top) && Live(blk, ptr)
  {
    && blk[ptr].n != k && blk[ptr].n < k + MINIMUM
    && !NeighboursSuffice(blk, top, ptr, k) && !GrowBranch(blk, top, ptr, k)
  }

  /** The same in bytes. */
  lemma SufficeInBytes(blk: Blocks, top: int, ptr: int, newsize: int)
    requires Tiled(blk, top) && Live(blk, ptr) && newsize % 8 == 0
    ensures var prev, next, need := Prev(blk, top, ptr), End(blk, ptr), newsize - 4 * blk[ptr].n;
      NeighboursSuffice(blk, top, ptr, newsize / 4) <==>
        need > 0 && need <= (if blk[prev].alloc then 0 else 4 * blk[prev].n) + (if next in blk && !blk[next].alloc then 4 * blk[next].n else 0)
  {
    assert newsize == 4 * (newsize / 4);
  }

  /** How a call of mm_realloc for a block of asize bytes ends, branch by branch, told from the tiling and the list
      before it; g and top' are the tiling and the break after it. */
  ghost predicate EndsAs(blk: Blocks, top: int, free: seq<int>, ptr: int, asize: int, o: Outcome, g: Blocks, top': int)
    requires Tiled(blk, top) && Live(blk, ptr) && (forall f :: f in free ==> f in blk)
  {
    var k, have := asize / 4, 4 * blk[ptr].n;
    && o != CallsLibcFree
    && (have == asize ==> o == Returned(ptr) && g == blk && top' == top)
    && (have >= asize + 16 ==> o == Returned(ptr) && ptr in g && 4 * g[ptr].n == asize && top' == top)
    && (NeighboursSuffice(blk, top, ptr, k) ==> o.Returned? && o.p != NULL && top' == top)
    && TakesIn(blk, top, ptr, k, g, o)
    && (GrowBranch(blk, top, ptr, k) ==>
          if Refused(top, CHUNKSIZE / 4) then o == Returned(NULL)
          else if asize - have > CHUNKSIZE - 16 then o.BadFree?
          else o == Returned(ptr) && ptr in g && 4 * g[ptr].n == asize && top' == top + CHUNKSIZE / 4)
    && (MoveBranch(blk, top, ptr, k) ==>
          if FirstFit(blk, free, k) == NULL && Refused(top, Allocator.ExtendSize(asize) / 4) then o == Exits
          else o.Returned? && o.p != NULL && !Live(blk, o.p) && o.p in g && 4 * g[o.p].n < asize + 16)
  }

  /** The branches that leave the break where it is and always succeed. */
  lemma EndsInPlace(blk: Blocks, top: int, free: seq<int>, ptr: int, asize: int, o: Outcome, g: Blocks)
    requires Tiled(blk, top) && Live(blk, ptr) && (forall f :: f in free ==> f in blk) && asize % 8 == 0
    requires o.Returned? && o.p != NULL && TakesIn(blk, top, ptr, asize / 4, g, o)
    requires 4 * blk[ptr].n == asize ==> o == Returned(ptr) && g == blk
    requires 4 * blk[ptr].n >= asize + 16 ==> o == Returned(ptr) && ptr in g && 4 * g[ptr].n == asize
    requires NeighboursSuffice(blk, top, ptr, asize / 4) || 4 * blk[ptr].n == asize || 4 * blk[ptr].n >= asize + 16
    ensures EndsAs(blk, top, free, ptr, asize, o, g, top)
  {
    WholeWords(asize);
    hide Tiled, TakesIn, Below, Above, FirstFit;
  }

  /** The block had the right size, or shrinks. */
  lemma EndsAtOnce(blk: Blocks, top: int, free: seq<int>, ptr: int, asize: int, g: Blocks)
    requires Tiled(blk, top) && Live(blk, ptr) && (forall f :: f in free ==> f in blk) && asize % 8 == 0
    requires (4 * blk[ptr].n == asize && g == blk) || (4 * blk[ptr].n >= asize + 16 && ptr in g && 4 * g[ptr].n == asize)
    ensures EndsAs(blk, top, free, ptr, asize, Returned(ptr), g, top)
  {
    WholeWords(asize);
    assert ptr != NULL && asize / 4 <= blk[ptr].n;
    hide TakesIn, Tiled;
    EndsInPlace(blk, top, free, ptr, asize, Returned(ptr), g);
  }

  /** The neighbours are taken in. */
  lemma EndsAbove(blk: Blocks, top: int, free: seq<int>, ptr: int, asize: int)
    requires Tiled(blk, top) && Live(blk, ptr) && (forall f :: f in free ==> f in blk) && asize % 8 == 0
    requires 0 < asize - 4 * blk[ptr].n && End(blk, ptr) in blk && !blk[End(blk, ptr)].alloc
    requires asize - 4 * blk[ptr].n <= 4 * blk[End(blk, ptr)].n
    ensures EndsAs(blk, top, free, ptr, asize, Returned(ptr), Fused(blk, ptr, End(blk, End(blk, ptr)), true), top)
  {
    WholeWords(asize);
    assert ptr != NULL;
    EndsInPlace(blk, top, free, ptr, asize, Returned(ptr), Fused(blk, ptr, End(blk, End(blk, ptr)), true));
  }

  lemma EndsBelow(blk: Blocks, top: int, free: seq<int>, ptr: int, asize: int, newp: int, g: Blocks)
    requires Tiled(blk, top) && Live(blk, ptr) && (forall f :: f in free ==> f in blk) && asize % 8 == 0 && newp == Prev(blk, top, ptr)
    requires 4 * Above(blk, ptr) < asize - 4 * blk[ptr].n && !blk[newp].alloc && asize - 4 * blk[ptr].n <= 4 * blk[newp].n
    requires newp <= End(blk, ptr) && g == Fused(blk, newp, End(blk, ptr), true)
    ensures EndsAs(blk, top, free, ptr, asize, Returned(newp), g, top)
  {
    WholeWords(asize);
    assert newp != NULL;
    TakesBelow(blk, top, ptr, asize / 4);
    hide Tiled, TakesIn, Fused, Prev;
    EndsInPlace(blk, top, free, ptr, asize, Returned(newp), g);
  }

  lemma EndsBoth(blk: Blocks, top: int, free: seq<int>, ptr: int, asize: int, newp: int, g: Blocks)
    requires Tiled(blk, top) && Live(blk, ptr) && (forall f :: f in free ==> f in blk) && asize % 8 == 0 && newp == Prev(blk, top, ptr)
    requires 4 * Above(blk, ptr) < asize - 4 * blk[ptr].n && 4 * Below(blk, top, ptr) < asize - 4 * blk[ptr].n
    requires asize - 4 * blk[ptr].n <= 4 * Below(blk, top, ptr) + 4 * Above(blk, ptr)
    requires End(blk, ptr) in blk && newp <= End(blk, End(blk, ptr)) && g == Fused(blk, newp, End(blk, End(blk, ptr)), true)
    ensures EndsAs(blk, top, free, ptr, asize, Returned(newp), g, top)
  {
    WholeWords(asize);
    assert newp != NULL;
    TakesBoth(blk, top, ptr, asize / 4);
    hide Tiled, TakesIn, Fused, Prev;
    EndsInPlace(blk, top, free, ptr, asize, Returned(newp), g);
  }

  /** The neighbours are no help, and the block has to grow or to move. */
  lemma EndsElsewhere(blk: Blocks, top: int, free: seq<int>, ptr: int, asize: int, o: Outcome, g: Blocks, top': int)
    requires Tiled(blk, top) && Live(blk, ptr) && (forall f :: f in free ==> f in blk) && asize % 8 == 0
    requires !NeighboursSuffice(blk, top, ptr, asize / 4) && 4 * blk[ptr].n != asize && 4 * blk[ptr].n < asize + 16
    requires o != CallsLibcFree
    requires 4 * blk[ptr].n < asize && End(blk, ptr) == top ==>
               if Refused(top, CHUNKSIZE / 4) then o == Returned(NULL)
               else if asize - 4 * blk[ptr].n > CHUNKSIZE - 16 then o.BadFree?
               else o == Returned(ptr) && ptr in g && 4 * g[ptr].n == asize && top' == top + CHUNKSIZE / 4
    requires !(4 * blk[ptr].n < asize && End(blk, ptr) == top) ==>
               if FirstFit(blk, free, asize / 4) == NULL && Refused(top, Allocator.ExtendSize(asize) / 4) then o == Exits
               else o.Returned? && o.p != NULL && !Live(blk, o.p) && o.p in g && 4 * g[o.p].n < asize + 16
    ensures EndsAs(blk, top, free, ptr, asize, o, g, top')
  {
    WholeWords(asize);
    hide Tiled, TakesIn, NeighboursSuffice, GrowBranch, MoveBranch, FirstFit, Refused;
  }

  /** No other case is left, so each way to end tells which branch it was. */
  lemma EndsTell(blk: Blocks, top: int, free: seq<int>, ptr: int, asize: int, o: Outcome, g: Blocks, top': int)
    requires Tiled(blk, top) && Live(blk, ptr) && (forall f :: f in free ==> f in blk) && asize % 8 == 0
    requires EndsAs(blk, top, free, ptr, asize, o, g, top')
    ensures o.BadFree? <==> GrowBranch(blk, top, ptr, asize / 4) && !Refused(top, CHUNKSIZE / 4) && asize - 4 * blk[ptr].n > CHUNKSIZE - 16
    ensures o == Returned(NULL) <==> GrowBranch(blk, top, ptr, asize / 4) && Refused(top, CHUNKSIZE / 4)
    ensures o == Exits <==> MoveBranch(blk, top, ptr, asize / 4) && FirstFit(blk, free, asize / 4) == NULL
                            && Refused(top, Allocator.ExtendSize(asize) / 4)
  {
    WholeWords(asize);
    hide Tiled, NeighboursSuffice, TakesIn, FirstFit, Refused;
  }

  /** mm_realloc also adds MINIMUM to the adjusted size, and compares the unsigned sum. */
  predicate ReallocNoWrap(size: int) { 0 <= size <= 0xFFFF_FFE0 }

  lemma ReallocSumExact(size: int)
    requires NoWrap(size)
    ensures (AdjustedSize(size) + 16) % 0x1_0000_0000 == AdjustedSize(size) + 16 <==> ReallocNoWrap(size)
  {
  }

  class Allocator {
    const lib: Memory
    var heapListp: int
    var freeListp: int
    ghost var blk: Blocks
    ghost var top: int
    ghost var free: seq<int>

    /** The globals before mm_init. */
    constructor (memory: Memory)
      ensures lib == memory
    {
      lib := memory;
      heapListp, freeListp := NULL, NULL;
      blk, top, free := map[], 0, [];
    }

    /** The invariant, while the free block x is still outside the list (NULL: no such block). */
    ghost predicate ValidBut(x: int) reads this, lib, lib.arena {
      && lib.Valid() && lib.brk == 4 * top && heapListp == PROLOGUE
      && WellFormedBut(lib.arena[..], blk, top, free, x) && freeListp == HeadOf(free)
    }

    ghost predicate Valid() reads this, lib, lib.arena { ValidBut(NULL) }

    /** The payload words of the live blocks. */
    ghost function Owned(): map<int, seq<Word>> reads this, lib, lib.arena {
      Payloads(lib.arena[..], blk)
    }

    // ---- the pointer macros -------------------------------------------------------------------

    function Hdrp(bp: int): int { bp - 1 }

    function Ftrp(bp: int): int
      requires 1 <= bp <= lib.arena.Length
      reads lib.arena
    {
      bp + GetSize(lib.arena[Hdrp(bp)]) / 4 - 2
    }

    function NextBlkp(bp: int): int
      requires 1 <= bp <= lib.arena.Length
      reads lib.arena
    {
      bp + GetSize(lib.arena[Hdrp(bp)]) / 4
    }

    function PrevBlkp(bp: int): int
      requires 2 <= bp <= lib.arena.Length + 1
      reads lib.arena
    {
      bp - GetSize(lib.arena[bp - 2]) / 4
    }

    // ---- the free list ------------------------------------------------------------------------

    /** Takes the node bp out of the list; only link words change. */
    method RemoveBlock(bp: int)
      requires Linked(lib.arena[..], free) && freeListp == HeadOf(free) && bp in free
      modifies this`freeListp, this`free, lib.arena
      ensures Linked(old(lib.arena[..]), old(free)) && lib.arena[..] == Unlinked(old(lib.arena[..]), old(free), IndexOf(old(free), bp))
      ensures freeListp == HeadOf(free) && free == Without(old(free), bp)
    {
      ghost var m, k := lib.arena[..], IndexOf(free, bp);
      WithoutAt(free, k);
      assert LinkAt(m, free, k);
      var prev, next := lib.arena[bp], lib.arena[bp + 1];
      if next != NULL {
        lib.arena[next] := prev;
      }
      if prev != NULL {
        lib.arena[prev + 1] := next;
      } else {
        freeListp := next;
        if next != NULL {
          lib.arena[next] := NULL;
        }
      }
      assert lib.arena[..] == Unlinked(m, free, k);
      free := free[..k] + free[k + 1..];
    }

    /** Puts bp at the front of the list; only link words change. */
    method InsertBlock(bp: int)
      requires Linked(lib.arena[..], free) && freeListp == HeadOf(free)
      requires 0 < bp < lib.arena.Length - 1 && lib.arena.Length < 0x2000_0000
      modifies this`freeListp, this`free, lib.arena
      ensures Linked(old(lib.arena[..]), old(free)) && lib.arena[..] == Pushed(old(lib.arena[..]), old(free), bp)
      ensures freeListp == HeadOf(free) && free == [bp] + old(free)
    {
      ghost var m := lib.arena[..];
      if freeListp == NULL {
        freeListp := bp;
        lib.arena[bp] := NULL;
        lib.arena[bp + 1] := NULL;
      } else {
        var p := freeListp;
        lib.arena[p] := bp;
        lib.arena[bp] := NULL;
        lib.arena[bp + 1] := p;
        freeListp := bp;
      }
      assert lib.arena[..] == Pushed(m, free, bp);
      free := [bp] + free;
    }

    // ---- coalescing ---------------------------------------------------------------------------

    /** The two PUTs of the second case: the sizes are read off the tags of two blocks from bp to hi. */
    method WriteNextTags(bp: int, size0: int, ghost next: int, ghost hi: int)
      requires 1 <= bp && bp + 2 <= next && next + 2 <= hi <= lib.arena.Length < 0x2000_0000
      requires GetSize(4 * (hi - bp)) == 4 * (hi - bp)
      requires GetSize(lib.arena[bp - 1]) == 4 * (next - bp) == size0 && GetSize(lib.arena[next - 1]) == 4 * (hi - next)
      modifies lib.arena
      ensures lib.arena[..] == old(lib.arena[..])[bp - 1 := 4 * (hi - bp)][hi - 2 := 4 * (hi - bp)]
    {
      hide GetSize;
      assert NextBlkp(bp) == next;
      var size := size0 + GetSize(lib.arena[Hdrp(NextBlkp(bp))]);
      lib.arena[Hdrp(bp)] := Pack(size, 0);
      assert Ftrp(bp) == hi - 2;
      lib.arena[Ftrp(bp)] := Pack(size, 0);
    }

    /** The two PUTs of the third case: two blocks from lo to next. */
    method WritePrevTags(bp: int, size0: int, ghost lo: int, ghost next: int) returns (r: int)
      requires 2 <= lo && lo + 2 <= bp && bp + 2 <= next <= lib.arena.Length < 0x2000_0000
      requires GetSize(lib.arena[bp - 2]) == 4 * (bp - lo) == GetSize(lib.arena[lo - 1]) && GetSize(lib.arena[bp - 1]) == 4 * (next - bp) == size0
      modifies lib.arena
      ensures r == lo && lib.arena[..] == old(lib.arena[..])[lo - 1 := 4 * (next - lo)][next - 2 := 4 * (next - lo)]
    {
      hide GetSize;
      assert PrevBlkp(bp) == lo && Ftrp(bp) == next - 2;
      var size := size0 + GetSize(lib.arena[Hdrp(PrevBlkp(bp))]);
      lib.arena[Ftrp(bp)] := Pack(size, 0);
      lib.arena[Hdrp(PrevBlkp(bp))] := Pack(size, 0);
      r := PrevBlkp(bp);
    }

    /** coalesce, second case: only the next block is free. */
    method AbsorbNext(bp: int, size0: int)
      requires ValidBut(bp) && bp in blk && bp != PROLOGUE && !blk[bp].alloc
      requires blk[Prev(blk, top, bp)].alloc && End(blk, bp) in blk && !blk[End(blk, bp)].alloc
      requires size0 == 4 * blk[bp].n
      modifies this`freeListp, this`free, lib.arena
      ensures freeListp == HeadOf(free) && free == Others(blk, top, old(free), bp)
      ensures Joined(old(lib.arena[..]), lib.arena[..], blk, top, old(free), bp)
    {
      hide Tiled, Even, Tagged, Linked, ListsFree, Coalesced, Without, Payloads, GetSize, GetAlloc, Fused, Prev, Unlinked;
      ghost var free0, m: seq<Word> := free, lib.arena[..];
      ghost var t: Word := MergedTag(blk, top, bp);
      NeighbourTags(m, blk, top, bp);
      NeighbourLists(blk, top, free, bp);
      RunIsRun(blk, top, bp);
      SizeOfMerged(blk, top, bp);
      RemoveBlock(NextBlkp(bp));
      UnlinkFree(m, lib.arena[..], blk, top, free0, free0, bp, End(blk, bp));
      WithoutAbsent(free, Prev(blk, top, bp));
      ghost var m1: seq<Word> := lib.arena[..];
      NeighbourTags(m1, blk, top, bp);
      WriteNextTags(bp, size0, End(blk, bp), RunHi(blk, bp));
      CoalesceTags(m, m1, lib.arena[..], blk, top, free0, bp);
    }

    /** coalesce, third case: only the previous block is free. */
    method AbsorbPrev(bp: int, size0: int) returns (r: int)
      requires ValidBut(bp) && bp in blk && bp != PROLOGUE && !blk[bp].alloc
      requires !blk[Prev(blk, top, bp)].alloc && !(End(blk, bp) in blk && !blk[End(blk, bp)].alloc)
      requires size0 == 4 * blk[bp].n
      modifies this`freeListp, this`free, lib.arena
      ensures freeListp == HeadOf(free) && free == Others(blk, top, old(free), bp)
      ensures Joined(old(lib.arena[..]), lib.arena[..], blk, top, old(free), bp) && r == RunLo(blk, top, bp)
    {
      hide Tiled, Even, Tagged, Linked, ListsFree, Coalesced, Without, Payloads, GetSize, GetAlloc, Fused, Prev, Unlinked;
      ghost var free0, m: seq<Word> := free, lib.arena[..];
      ghost var t: Word := MergedTag(blk, top, bp);
      NeighbourTags(m, blk, top, bp);
      NeighbourLists(blk, top, free, bp);
      RunIsRun(blk, top, bp);
      SizeOfMerged(blk, top, bp);
      WithoutAbsent(free, End(blk, bp));
      RemoveBlock(PrevBlkp(bp));
      UnlinkFree(m, lib.arena[..], blk, top, free0, free0, bp, Prev(blk, top, bp));
      ghost var m1: seq<Word> := lib.arena[..];
      NeighbourTags(m1, blk, top, bp);
      r := WritePrevTags(bp, size0, RunLo(blk, top, bp), End(blk, bp));
      CoalesceTags(m, m1, lib.arena[..], blk, top, free0, bp);
    }

    /** Both neighbours leave the list; tags and payloads stay as they are. */
    method RemoveNeighbours(bp: int)
      requires ValidBut(bp) && bp in blk && bp != PROLOGUE && !blk[bp].alloc
      requires !blk[Prev(blk, top, bp)].alloc && End(blk, bp) in blk && !blk[End(blk, bp)].alloc
      modifies this`freeListp, this`free, lib.arena
      ensures freeListp == HeadOf(free) && free == Others(blk, top, old(free), bp)
      ensures Tagged(lib.arena[..], blk, top) && Linked(lib.arena[..], free)
      ensures Payloads(lib.arena[..], blk) == old(Payloads(lib.arena[..], blk))
    {
      hide Tiled, Even, Tagged, Linked, ListsFree, Coalesced, Without, Payloads, GetSize, GetAlloc, Prev, Unlinked;
      ghost var free0, m: seq<Word> := free, lib.arena[..];
      NeighbourTags(m, blk, top, bp);
      NeighbourLists(blk, top, free, bp);
      WithoutProps(free, End(blk, bp));
      RemoveBlock(NextBlkp(bp));
      UnlinkFree(m, lib.arena[..], blk, top, free0, free0, bp, End(blk, bp));
      ghost var m1: seq<Word> := lib.arena[..];
      PrevTag(m1, blk, top, bp);
      RemoveBlock(PrevBlkp(bp));
      UnlinkFree(m1, lib.arena[..], blk, top, free0, Without(free0, End(blk, bp)), bp, Prev(blk, top, bp));
    }

    /** The two PUTs of the fourth case: the sizes are read off the tags of three blocks from lo to hi. */
    method WriteBothTags(bp: int, size0: int, ghost lo: int, ghost next: int, ghost hi: int) returns (r: int)
      requires 2 <= lo < bp < next < hi && lo + 2 <= bp && bp + 2 <= next && next + 2 <= hi <= lib.arena.Length < 0x2000_0000
      requires GetSize(lib.arena[bp - 2]) == 4 * (bp - lo) == GetSize(lib.arena[lo - 1]) && GetSize(lib.arena[bp - 1]) == 4 * (next - bp) == size0
      requires GetSize(lib.arena[next - 1]) == 4 * (hi - next) == GetSize(lib.arena[hi - 2])
      modifies lib.arena
      ensures r == lo && lib.arena[..] == old(lib.arena[..])[lo - 1 := 4 * (hi - lo)][hi - 2 := 4 * (hi - lo)]
    {
      hide GetSize;
      assert NextBlkp(bp) == next && PrevBlkp(bp) == lo && Ftrp(next) == hi - 2;
      var size := size0 + GetSize(lib.arena[Hdrp(PrevBlkp(bp))]) + GetSize(lib.arena[Ftrp(NextBlkp(bp))]);
      lib.arena[Hdrp(PrevBlkp(bp))] := Pack(size, 0);
      assert NextBlkp(bp) == next && PrevBlkp(bp) == lo && Ftrp(next) == hi - 2;
      lib.arena[Ftrp(NextBlkp(bp))] := Pack(size, 0);
      r := PrevBlkp(bp);
    }

    /** coalesce, fourth case: both neighbours are free. */
    method AbsorbBoth(bp: int, size0: int) returns (r: int)
      requires ValidBut(bp) && bp in blk && bp != PROLOGUE && !blk[bp].alloc
      requires !blk[Prev(blk, top, bp)].alloc && End(blk, bp) in blk && !blk[End(blk, bp)].alloc
      requires size0 == 4 * blk[bp].n
      modifies this`freeListp, this`free, lib.arena
      ensures freeListp == HeadOf(free) && free == Others(blk, top, old(free), bp)
      ensures Joined(old(lib.arena[..]), lib.arena[..], blk, top, old(free), bp) && r == RunLo(blk, top, bp)
    {
      hide Tiled, Even, Tagged, Linked, ListsFree, Coalesced, Without, Payloads, GetSize, GetAlloc, Fused, Prev, Unlinked;
      ghost var free0, m: seq<Word> := free, lib.arena[..];
      ghost var t: Word := MergedTag(blk, top, bp);
      SizeOfMerged(blk, top, bp);
      RunIsRun(blk, top, bp);
      RemoveNeighbours(bp);
      ghost var m2: seq<Word> := lib.arena[..];
      NeighbourTags(m2, blk, top, bp);
      r := WriteBothTags(bp, size0, RunLo(blk, top, bp), End(blk, bp), RunHi(blk, bp));
      CoalesceTags(m, m2, lib.arena[..], blk, top, free0, bp);
    }

    /** The free block bp, not yet listed, absorbs its free neighbours and goes to the front of the list. */
    method Coalesce(bp: int) returns (r: int)
      requires ValidBut(bp) && bp in blk && bp != PROLOGUE && !blk[bp].alloc
      modifies this`freeListp, this`free, this`blk, lib.arena
      ensures Valid() && Owned() == old(Owned()) && PROLOGUE + 2 <= r
      ensures r == old(RunLo(blk, top, bp)) && blk == old(Merged(blk, top, bp))
      ensures free == old(MergedList(blk, top, free, bp))
    {
      hide Tiled, Even, Tagged, Linked, ListsFree, Coalesced, Without, Payloads, GetSize, GetAlloc, Fused, Prev, Pushed;
      ghost var blk0, free0, m: seq<Word> := blk, free, lib.arena[..];
      ghost var t: Word := MergedTag(blk, top, bp);
      NeighbourTags(m, blk, top, bp);
      NeighbourLists(blk, top, free, bp);
      RunIsRun(blk, top, bp);
      var prevAlloc := GetAlloc(lib.arena[Ftrp(PrevBlkp(bp))]);
      var nextAlloc := GetAlloc(lib.arena[Hdrp(NextBlkp(bp))]);
      var size := GetSize(lib.arena[Hdrp(bp)]);
      r := bp;
      if prevAlloc == 1 && nextAlloc == 1 {
        WithoutAbsent(free, End(blk, bp));
        WithoutAbsent(free, Prev(blk, top, bp));
        assert m == m[bp - 1 := t][End(blk, bp) - 2 := t];
        CoalesceTags(m, m, m, blk, top, free, bp);
      } else if prevAlloc == 1 && nextAlloc == 0 {
        AbsorbNext(bp, size);
      } else if prevAlloc == 0 && nextAlloc == 1 {
        r := AbsorbPrev(bp, size);
      } else {
        r := AbsorbBoth(bp, size);
      }
      ghost var w := lib.arena[..];
      InsertBlock(r);
      CoalesceEnds(m, w, lib.arena[..], blk, top, free0, bp);
      blk := Merged(blk, top, bp);
    }

    // ---- mm_free ------------------------------------------------------------------------------

    /** bp leaves the live blocks; every other payload is untouched. */
    method MmFree(bp: int)
      requires Valid() && Live(blk, bp)
      modifies this`freeListp, this`free, this`blk, lib.arena
      ensures Valid() && Owned() == old(Owned()) - {bp}
      ensures Tiled(Freed(old(blk), bp), top) && blk == Merged(Freed(old(blk), bp), top, bp)
      ensures free == MergedList(Freed(old(blk), bp), top, old(free), bp)
      ensures Tiled(old(blk), old(top)) && free != [] && free[0] == bp - Below(old(blk), top, bp)
      ensures OneRun(old(blk), blk, bp - Below(old(blk), top, bp), End(old(blk), bp) + Above(old(blk), bp), false)
    {
      hide Tiled, Even, Tagged, Linked, ListsFree, Coalesced, Payloads, GetSize, GetAlloc, Merged, MergedList, Prev, Fused, OneRun;
      ghost var blk0, free0, m: seq<Word> := blk, free, lib.arena[..];
      NeighbourTags(m, blk, top, bp);
      var size := GetSize(lib.arena[Hdrp(bp)]);
      lib.arena[Hdrp(bp)] := Pack(size, 0);
      ReadTags(m, blk, top, bp);
      TagFields(Block(blk[bp].n, false));
      lib.arena[Ftrp(bp)] := Pack(size, 0);
      FreeStep(m, lib.arena[..], blk, top, free, bp);
      blk := Freed(blk, bp);
      FreedRun(blk0, top, free0, bp);
      var r := Coalesce(bp);
    }

    // ---- growing the heap ---------------------------------------------------------------------

    /** The int that a size_t argument becomes. */
    function ToInt(size: int): int { if size < 0x8000_0000 then size else size - 0x1_0000_0000 }

    /** The tags of the new block, and the epilogue header behind it. */
    method WriteEpilogue(bp: int, size: int)
      requires 1 <= bp && 16 <= size && size % 8 == 0 && bp + size / 4 <= lib.arena.Length < 0x2000_0000
      modifies lib.arena
      ensures lib.arena[..] == old(lib.arena[..])[bp - 1 := size][bp + size / 4 - 2 := size][bp + size / 4 - 1 := 1]
    {
      hide GetSize;
      TagFields(Block(size / 4, false));
      lib.arena[Hdrp(bp)] := Pack(size, 0);
      lib.arena[Ftrp(bp)] := Pack(size, 0);
      lib.arena[Hdrp(NextBlkp(bp))] := Pack(0, 1);
    }

    /** NULL when the memory system refuses; otherwise the free block that now ends at the break. */
    method ExtendHeap(words: int) returns (bp: int)
      requires Valid() && MINIMUM <= words && 4 * words <= 0x1_0000_0000 - 8
      modifies this`freeListp, this`free, this`blk, this`top, lib, lib.arena
      ensures Valid() && Owned() == old(Owned())
      ensures bp == NULL <==> Refused(old(top), Even2(words))
      ensures bp == NULL ==> blk == old(blk) && top == old(top) && free == old(free) && lib.arena[..] == old(lib.arena[..])
      ensures bp != NULL ==> Tiled(Grown(old(blk), old(top), Even2(words)), old(top) + Even2(words)) && old(top) != PROLOGUE
      ensures bp != NULL ==> top == old(top) + Even2(words) && Extends(old(blk), old(top), old(free), Even2(words), bp, blk, free)
      ensures lib.refusals == old(lib.refusals) + if bp == NULL then 1 else 0
    {
      hide Even, Tagged, Linked, ListsFree, Coalesced, Payloads, GetSize, GetAlloc, Merged, MergedList, RunLo, RunHi, NextOk, Apart;
      var size := if words % 2 == 1 then (words + 1) * 4 else words * 4;
      var p := lib.MemSbrk(ToInt(size));
      if p == -1 {
        return NULL;
      }
      bp := p / 4;
      FormatNew(bp, size);
      bp := Coalesce(bp);
    }

    /** The words that mem_sbrk has just handed out become a free block, not yet coalesced or listed. */
    method FormatNew(bp: int, size: int)
      requires lib.Valid() && lib.brk == 4 * top + size && heapListp == PROLOGUE && freeListp == HeadOf(free)
      requires WellFormed(lib.arena[..], blk, top, free) && bp == top && size % 8 == 0 && 16 <= size
      modifies this`blk, this`top, lib.arena
      ensures ValidBut(bp) && Owned() == old(Owned()) && PROLOGUE + 2 <= bp
      ensures top == old(top) + size / 4 && blk == Grown(old(blk), old(top), size / 4) && Tiled(blk, top)
    {
      hide Even, Tagged, Linked, ListsFree, Coalesced, Payloads, NextOk, Apart;
      ghost var m: seq<Word> := lib.arena[..];
      WriteEpilogue(bp, size);
      GrowStep(m, lib.arena[..], blk, top, free, size / 4);
      blk := Grown(blk, top, size / 4);
      top := top + size / 4;
    }

    // ---- mm_init ------------------------------------------------------------------------------

    /** On an empty heap mm_init always succeeds: one free block of CHUNKSIZE bytes, nothing live. */
    method MmInit() returns (r: int)
      requires lib.Valid() && lib.brk == 0
      modifies this, lib, lib.arena
      ensures r == 0 && Valid() && Owned() == map[]
      ensures blk == Grown(Prologue, 4, CHUNKSIZE / 4) && free == [4] && top == 4 + CHUNKSIZE / 4
      ensures lib.refusals == old(lib.refusals)
    {
      hide Even, Tagged, Linked, ListsFree, Coalesced, Payloads, Merged, MergedList, RunLo, RunHi, NextOk, Apart;
      var start := lib.MemSbrk(16);   // compared with NULL in the source, which mem_sbrk never returns
      heapListp := start / 4;
      lib.arena[heapListp] := 0;
      lib.arena[heapListp + 1] := Pack(8, 1);
      lib.arena[heapListp + 2] := Pack(8, 1);
      lib.arena[heapListp + 3] := Pack(0, 1);
      heapListp := heapListp + 2;
      freeListp := NULL;
      blk, top, free := Prologue, 4, [];
      InitStep(lib.arena[..]);
      InitGrows(CHUNKSIZE / 4);
      var p := ExtendHeap(CHUNKSIZE / 4);
      if p == NULL {
        return -1;
      }
      return 0;
    }

    // ---- place and find_fit -------------------------------------------------------------------

    /** The first block of the list, in list order, of at least asize bytes. */
    method FindFit(asize: int) returns (p: int)
      requires Valid()
      ensures (forall f :: f in free ==> f in blk) && (asize % 4 == 0 ==> p == FirstFit(blk, free, asize / 4))
      ensures p == NULL ==> forall f :: f in free ==> 4 * blk[f].n < asize
      ensures p != NULL ==> exists i :: 0 <= i < |free| && p == free[i] && asize <= 4 * blk[free[i]].n
                                        && forall j :: 0 <= j < i ==> 4 * blk[free[j]].n < asize
    {
      hide Tiled, Even, Tagged, Coalesced, GetSize, GetAlloc, PrevNode;
      ghost var i, m: seq<Word> := 0, lib.arena[..];
      p := freeListp;
      while p != NULL
        invariant 0 <= i <= |free|
        invariant p == (if i == |free| then NULL else free[i])
        invariant forall j :: 0 <= j < i ==> free[j] in blk && 4 * blk[free[j]].n < asize
        decreases |free| - i
      {
        ReadTags(m, blk, top, p);
        assert LinkAt(m, free, i);
        if GetAlloc(lib.arena[Hdrp(p)]) == 0 && asize <= GetSize(lib.arena[Hdrp(p)]) {
          if asize % 4 == 0 { FirstFitSkips(blk, free, asize / 4, i); }
          return;
        }
        p := lib.arena[p + 1];
        i := i + 1;
      }
      if asize % 4 == 0 { FirstFitSkips(blk, free, asize / 4, i); }
    }

    /** The splitting half of place. */
    method PlaceAndSplit(bp: int, asize: int, csize: int)
      requires Valid() && asize % 8 == 0 && bp in free && Cuts(blk, bp, asize / 4) && csize == 4 * blk[bp].n
      modifies this`freeListp, this`free, this`blk, lib.arena
      ensures Valid() && Owned() - {bp} == old(Owned()) && Live(blk, bp) && blk[bp].n == asize / 4
      ensures blk == Split(old(blk), bp, asize / 4, true, false) && free == [bp + asize / 4] + Without(old(free), bp)
    {
      hide Tiled, Even, Tagged, Linked, Coalesced, GetSize, GetAlloc, Without, ListsFree, Payloads, Unlinked, Merged, MergedList;
      ghost var k, free0, m: seq<Word> := asize / 4, free, lib.arena[..];
      NodeIsFree(blk, top, free, bp);
      RestStandsAlone(blk, top, free, bp, k);
      var rest := SplitTags(bp, asize, csize);
      blk := Split(blk, bp, k, true, false);
      rest := Coalesce(rest);
    }

    /** The first half of a split: block bp gets its new tags and leaves the list. */
    method TagAndRemove(bp: int, asize: int)
      requires Tiled(blk, top) && Linked(lib.arena[..], free) && ListsFree(blk, free, NULL) && freeListp == HeadOf(free)
      requires bp in free && bp in blk && asize == 4 * (asize / 4) && asize % 8 == 0 && 16 <= asize <= 4 * blk[bp].n
      requires 1 <= bp && End(blk, bp) <= top <= lib.arena.Length < 0x2000_0000
      modifies this`freeListp, this`free, lib.arena
      ensures freeListp == HeadOf(free) && free == Without(old(free), bp) && GetSize(lib.arena[bp - 1]) == asize
      ensures Linked(old(lib.arena[..])[bp - 1 := asize + 1][bp + asize / 4 - 2 := asize + 1], old(free))
      ensures lib.arena[..]
              == Unlinked(old(lib.arena[..])[bp - 1 := asize + 1][bp + asize / 4 - 2 := asize + 1], old(free), IndexOf(old(free), bp))
    {
      ghost var k, m: seq<Word> := asize / 4, lib.arena[..];
      TagFields(Block(k, true));
      assert Tag(Block(k, true)) == asize + 1 && GetSize(asize + 1) == asize;
      assert bp + k <= End(blk, bp);
      hide *;
      WriteTags(bp, asize, 1);
      PlaceUnlinks(m, lib.arena[..], blk, top, free, bp, bp + k, asize + 1);
      RemoveBlock(bp);
    }

    /** All of place but the last step: the rest is still to be listed. */
    method SplitTags(bp: int, asize: int, csize: int) returns (rest: int)
      requires Valid() && asize % 8 == 0 && bp in free && Cuts(blk, bp, asize / 4) && csize == 4 * blk[bp].n
      modifies this`freeListp, this`free, lib.arena
      ensures rest == bp + asize / 4 && free == Without(old(free), bp) && freeListp == HeadOf(free)
      ensures WellFormedBut(lib.arena[..], Split(blk, bp, asize / 4, true, false), top, free, rest)
      ensures Payloads(lib.arena[..], Split(blk, bp, asize / 4, true, false)) - {bp} == old(Owned())
    {
      hide Tiled, Even, Tagged, Linked, Coalesced, GetSize, GetAlloc, Without, Split, ListsFree, Payloads, Unlinked;
      ghost var k, free0, m: seq<Word> := asize / 4, free, lib.arena[..];
      WholeWords(asize);
      ReadTags(m, blk, top, bp);
      assert WellFormed(m, blk, top, free);
      hide WellFormedBut, Cuts, AgreeOff;
      TagAndRemove(bp, asize);
      ghost var v: seq<Word> := lib.arena[..];
      rest := NextBlkp(bp);
      WriteTags(rest, csize - asize, 0);
      PlaceSplit(m, v, lib.arena[..], blk, top, free0, bp, k);
    }

    /** The other half: the whole block is taken. */
    method PlaceAll(bp: int, csize: int)
      requires Valid() && bp in free && bp in blk && csize == 4 * blk[bp].n
      modifies this`freeListp, this`free, this`blk, lib.arena
      ensures Valid() && Owned() - {bp} == old(Owned()) && Live(blk, bp)
      ensures bp in old(blk) && blk == old(blk)[bp := Block(old(blk)[bp].n, true)] && free == Without(old(free), bp)
    {
      hide Tiled, Even, Tagged, Linked, Coalesced, GetSize, GetAlloc, Without, ListsFree, Payloads, Unlinked;
      ghost var m: seq<Word> := lib.arena[..];
      ReadTags(m, blk, top, bp);
      NodeIsFree(blk, top, free, bp);
      WriteTags(bp, csize, 1);
      PlaceUnlinks(m, lib.arena[..], blk, top, free, bp, End(blk, bp), Tag(Block(blk[bp].n, true)));
      RemoveBlock(bp);
      PlaceWhole(m, lib.arena[..], blk, top, old(free), bp);
      blk := blk[bp := Block(blk[bp].n, true)];
    }

    /** PUT on both tags of the block at bp. */
    method WriteTags(bp: int, size: int, alloc: int)
      requires 1 <= bp && 8 <= size && size % 8 == 0 && 0 <= alloc <= 1 && bp + size / 4 - 1 <= lib.arena.Length < 0x2000_0000
      modifies lib.arena
      ensures lib.arena[..] == old(lib.arena[..])[bp - 1 := size + alloc][bp + size / 4 - 2 := size + alloc]
    {
      hide GetSize;
      TagFields(Block(size / 4, alloc == 1));
      lib.arena[Hdrp(bp)] := Pack(size, alloc);
      lib.arena[Ftrp(bp)] := Pack(size, alloc);
    }

    /** Allocates the front of the free block bp, and splits off the rest if it can be a block. */
    method Place(bp: int, asize: int)
      requires Valid() && asize % 8 == 0 && Fits(blk, top, free, bp, asize / 4)
      modifies this`freeListp, this`free, this`blk, lib.arena
      ensures Valid() && Owned() - {bp} == old(Owned()) && Live(blk, bp) && asize <= 4 * blk[bp].n
      ensures bp in old(blk) && CutTo(blk, free, bp, asize, End(old(blk), bp)) && OthersStay(old(blk), blk, bp)
      ensures blk == Placed(old(blk), bp, asize / 4) && free == PlacedList(old(blk), old(free), bp, asize / 4)
    {
      ghost var m: seq<Word> := lib.arena[..];
      WholeWords(asize);
      NodeIsFree(blk, top, free, bp);
      PlacedIsCut(blk, top, free, bp, asize);
      hide Tiled, Even, Tagged, Linked, Coalesced, GetSize, GetAlloc, Without, Split, CutTo, OthersStay;
      ReadTags(m, blk, top, bp);
      var csize := GetSize(lib.arena[Hdrp(bp)]);
      if csize - asize >= 16 {
        PlaceAndSplit(bp, asize, csize);
      } else {
        PlaceAll(bp, csize);
      }
    }

    // ---- mm_malloc ----------------------------------------------------------------------------

    /** How many bytes mm_malloc asks for when nothing fits. */
    static function ExtendSize(asize: int): int { if asize > CHUNKSIZE then asize else CHUNKSIZE }

    /** place on a free block that nobody owns. */
    method PlaceFree(bp: int, asize: int)
      requires Valid() && asize % 8 == 0 && bp in free && bp in blk && 16 <= asize <= 4 * blk[bp].n
      modifies this`freeListp, this`free, this`blk, lib.arena
      ensures Valid() && Owned() - {bp} == old(Owned()) && bp !in old(Owned()) && bp != NULL
      ensures Live(blk, bp) && asize <= 4 * blk[bp].n && Fits(old(blk), top, old(free), bp, asize / 4)
      ensures CutTo(blk, free, bp, asize, End(old(blk), bp)) && OthersStay(old(blk), blk, bp)
      ensures blk == Placed(old(blk), bp, asize / 4) && free == PlacedList(old(blk), old(free), bp, asize / 4)
    {
      NodeIsFree(blk, top, free, bp);
      WholeWords(asize);
      assert bp !in Owned();
      assert (asize / 4) % 2 == 0 by { assert asize / 4 == 2 * (asize / 8); }
      assert Fits(blk, top, free, bp, asize / 4);
      hide *;
      Place(bp, asize);
    }

    /** mm_malloc when nothing fits: grow, then place in the grown block. */
    method GrowAndPlace(asize: int) returns (bp: int)
      requires Valid() && asize % 8 == 0 && 16 <= asize <= 0x1_0000_0000 - 8
      modifies this`freeListp, this`free, this`blk, this`top, lib, lib.arena
      ensures Valid() && (bp == NULL <==> Refused(old(top), ExtendSize(asize) / 4))
      ensures bp == NULL ==> blk == old(blk) && top == old(top) && free == old(free) && Owned() == old(Owned())
      ensures bp != NULL ==> Live(blk, bp) && asize <= 4 * blk[bp].n && top == old(top) + ExtendSize(asize) / 4
      ensures bp != NULL ==> FreeTail(old(blk), old(top), bp) && CutTo(blk, free, bp, asize, top) && OthersStay(old(blk), blk, bp)
      ensures bp != NULL ==> bp !in old(Owned()) && Owned() - {bp} == old(Owned())
      ensures lib.refusals == old(lib.refusals) + if bp == NULL then 1 else 0
    {
      hide Tiled, Even, Tagged, Linked, ListsFree, Coalesced, Payloads;
      ghost var blk0, top0, free0 := blk, top, free;
      var extendsize := if asize > CHUNKSIZE then asize else CHUNKSIZE;
      WholeWords(extendsize);
      assert Tiled(blk, top) && Even2(extendsize / 4) == extendsize / 4 == ExtendSize(asize) / 4;
      hide *;
      bp := ExtendHeap(extendsize / 4);
      if bp == NULL {
        return NULL;
      }
      ExtendedFits(blk0, top0, free0, extendsize / 4, bp, blk, free);
      ghost var blk1 := blk;
      PlaceFree(bp, asize);
    }

    /** NULL for an empty request or when nothing fits and the heap cannot grow; otherwise a new live
        block with room for the request, next to which every old payload is unchanged. */
    method MmMalloc(size: int) returns (bp: int)
      requires Valid() && NoWrap(size)
      modifies this`freeListp, this`free, this`blk, this`top, lib, lib.arena
      ensures Valid() && (forall f :: f in old(free) ==> f in old(blk))
      ensures bp == NULL <==> size == 0 || (FirstFit(old(blk), old(free), AdjustedSize(size) / 4) == NULL
                                            && Refused(old(top), ExtendSize(AdjustedSize(size)) / 4))
      ensures bp == NULL ==> blk == old(blk) && top == old(top) && free == old(free) && Owned() == old(Owned())
      ensures bp != NULL ==> Live(blk, bp) && size <= 4 * (blk[bp].n - 2)
      ensures bp != NULL ==> bp !in old(Owned()) && Owned() - {bp} == old(Owned())
      ensures bp != NULL ==> AdjustedSize(size) <= 4 * blk[bp].n < AdjustedSize(size) + 16 && OthersStay(old(blk), blk, bp)
      ensures bp != NULL && top == old(top) ==>
                bp in old(blk) && !old(blk)[bp].alloc && CutTo(blk, free, bp, AdjustedSize(size), End(old(blk), bp))
      ensures bp != NULL && top != old(top) ==> FreeTail(old(blk), old(top), bp) && CutTo(blk, free, bp, AdjustedSize(size), top)
      ensures bp != NULL && FirstFit(old(blk), old(free), AdjustedSize(size) / 4) != NULL ==>
                bp == FirstFit(old(blk), old(free), AdjustedSize(size) / 4) && top == old(top)
                && Fits(old(blk), old(top), old(free), bp, AdjustedSize(size) / 4)
                && blk == Placed(old(blk), bp, AdjustedSize(size) / 4)
                && free == PlacedList(old(blk), old(free), bp, AdjustedSize(size) / 4)
      ensures bp != NULL && FirstFit(old(blk), old(free), AdjustedSize(size) / 4) == NULL ==>
                top == old(top) + ExtendSize(AdjustedSize(size)) / 4
      ensures lib.refusals == old(lib.refusals) + if bp == NULL && size > 0 then 1 else 0
    {
      NodesAreBlocks(blk, top, free);
      hide *;
      if size <= 0 {
        return NULL;
      }
      AdjustedHoldsRequest(size);
      var asize := AdjustedSize(size);
      WholeWords(asize);
      bp := FindFit(asize);
      if bp != NULL {
        PlaceFree(bp, asize);
        return bp;
      }
      bp := GrowAndPlace(asize);
    }

    // ---- mm_realloc ---------------------------------------------------------------------------

    /** A call that fails leaves everything as it was. */
    twostate predicate Untouched() reads this, lib, lib.arena {
      Valid() && blk == old(blk) && top == old(top) && free == old(free) && Owned() == old(Owned())
    }

    /** A call that succeeds: block r has room for size bytes and begins with the bytes that block ptr had,
        as many as both sizes allow; no other payload has changed. */
    twostate predicate Resized(ptr: int, size: int, r: int)
      requires ptr in old(blk) && 2 <= old(blk)[ptr].n && 0 <= size
      reads this, lib, lib.arena
    {
      && Valid() && Live(blk, r) && size <= 4 * (blk[r].n - 2)
      && Owned() - {r} == old(Owned()) - {ptr}
      && KeepsBytes(old(lib.arena[..]), ptr, lib.arena[..], r, Least(size, 4 * old(blk)[ptr].n - 8))
    }

    /** The four PUTs that cut the block at ptr in two. */
    method WriteTwoBlocks(ptr: int, first: int, rest: int, restAlloc: int)
      requires 1 <= ptr && 8 <= first && first % 8 == 0 && 8 <= rest && rest % 8 == 0 && 0 <= restAlloc <= 1
      requires ptr + first / 4 + rest / 4 - 1 <= lib.arena.Length < 0x2000_0000
      modifies lib.arena
      ensures lib.arena[..] == old(lib.arena[..])[ptr - 1 := first + 1][ptr + first / 4 - 2 := first + 1]
                               [ptr + first / 4 - 1 := rest + restAlloc][ptr + first / 4 + rest / 4 - 2 := rest + restAlloc]
      ensures NextBlkp(ptr) == ptr + first / 4
    {
      hide GetSize;
      TagFields(Block(first / 4, true));
      WriteTags(ptr, first, 1);
      WriteTags(NextBlkp(ptr), rest, restAlloc);
    }

    /** The tags of a shrink: the tail is a free block, still to be listed. */
    method ShrinkTags(ptr: int, newsize: int, copySize: int) returns (newp: int)
      requires Valid() && Live(blk, ptr) && copySize == 4 * blk[ptr].n
      requires newsize % 8 == 0 && 16 <= newsize && newsize + 16 <= copySize
      modifies this`blk, lib.arena
      ensures ValidBut(newp) && newp == ptr + newsize / 4 && blk == Split(old(blk), ptr, newsize / 4, true, false)
      ensures newp in blk && newp != PROLOGUE && !blk[newp].alloc && Tiled(blk, top)
      ensures 0 <= ptr && ptr + newsize / 4 - 2 <= lib.arena.Length && ptr in Owned()
      ensures Owned() - {ptr} == old(Owned()) - {ptr} && Owned()[ptr] == old(lib.arena[..])[ptr .. ptr + newsize / 4 - 2]
    {
      hide Tiled, Even, Tagged, Linked, Coalesced, ListsFree, GetSize, GetAlloc, Payload, Payloads, LinkAt, Nodes, Tag, HeadOf, Split;
      ghost var m: seq<Word> := lib.arena[..];
      ReadTags(m, blk, top, ptr);
      WriteTwoBlocks(ptr, newsize, copySize - newsize, 0);
      newp := NextBlkp(ptr);
      ShrinkLeaves(m, lib.arena[..], blk, top, free, ptr, newsize, copySize - newsize);
      hide WellFormedBut;
      blk := Split(blk, ptr, newsize / 4, true, false);
    }

    /** The tail joins the list. */
    method ShrinkTail(ptr: int, newsize: int, copySize: int)
      requires Valid() && Live(blk, ptr) && copySize == 4 * blk[ptr].n
      requires newsize % 8 == 0 && 16 <= newsize && newsize + 16 <= copySize
      modifies this`freeListp, this`free, this`blk, lib.arena
      ensures Valid() && 0 <= ptr && ptr + newsize / 4 - 2 <= lib.arena.Length && ptr in Owned()
      ensures Owned() - {ptr} == old(Owned()) - {ptr} && Owned()[ptr] == old(lib.arena[..])[ptr .. ptr + newsize / 4 - 2]
      ensures Tiled(Split(old(blk), ptr, newsize / 4, true, false), top)
              && blk == Merged(Split(old(blk), ptr, newsize / 4, true, false), top, ptr + newsize / 4)
    {
      hide *;
      var newp := ShrinkTags(ptr, newsize, copySize);
      newp := Coalesce(newp);
    }

    /** The block shrinks in place and its tail is freed. */
    method ReallocShrink(ptr: int, newsize: int, copySize: int, ghost size: int)
      requires 0 <= size <= newsize - 8
      requires Valid() && Live(blk, ptr) && copySize == 4 * blk[ptr].n
      requires newsize % 8 == 0 && 16 <= newsize && newsize + 16 <= copySize
      modifies this`freeListp, this`free, this`blk, lib.arena
      ensures Resized(ptr, size, ptr) && blk[ptr].n == newsize / 4
      ensures Tiled(Split(old(blk), ptr, newsize / 4, true, false), top)
              && blk == Merged(Split(old(blk), ptr, newsize / 4, true, false), top, ptr + newsize / 4)
    {
      hide WellFormedBut, GetSize, GetAlloc, Merged, MergedList, RunLo, Split, Tiled, Payload, Payloads, KeepsBytes;
      ghost var k, m: seq<Word> := newsize / 4, lib.arena[..];
      WholeWords(newsize);
      ShrinkTail(ptr, newsize, copySize);
      KeptPrefix(m, lib.arena[..], blk, top, free, ptr, k);
      assert 4 * (k - 2) == newsize - 8 && Least(size, copySize - 8) == size;
      KeepsShorter(m, ptr, lib.arena[..], ptr, size, 4 * (k - 2));
    }

    /** Everything but the list: the block takes the words up to hi. */
    method TakeUp(ptr: int, total: int, ghost m: seq<Word>, ghost free0: seq<int>, ghost hi: int)
      requires lib.Valid() && lib.brk == 4 * top && heapListp == PROLOGUE && freeListp == HeadOf(free)
      requires WellFormed(m, blk, top, free0) && Span(blk, top, ptr, ptr, hi) && Drops(free0, free, ptr, hi)
      requires Tagged(lib.arena[..], blk, top) && Linked(lib.arena[..], free) && Payloads(lib.arena[..], blk) == Payloads(m, blk)
      requires |m| == lib.arena.Length && total == 4 * (hi - ptr)
      modifies this`blk, lib.arena
      ensures Valid() && Owned() - {ptr} == Payloads(m, old(blk)) - {ptr}
      ensures ptr <= hi && blk == Fused(old(blk), ptr, hi, true)
      ensures ptr in old(blk) && 2 <= old(blk)[ptr].n && KeepsBytes(m, ptr, lib.arena[..], ptr, 4 * old(blk)[ptr].n - 8)
    {
      hide Tiled, Even, Tagged, Linked, Coalesced, ListsFree, GetSize, GetAlloc, Payload, Payloads, Without, Unlinked, Drops, Span, KeepsBytes;
      ghost var u: seq<Word> := lib.arena[..];
      SpanIsRun(blk, top, ptr, ptr, hi);
      SpanEven(blk, top, ptr, ptr, hi);
      NeighbourTags(u, blk, top, ptr);
      assert Tag(Block(hi - ptr, true)) == total + 1;
      hide Fused, Tag, Run, Nodes, LinkAt, Calm;
      WriteTags(ptr, total, 1);
      TakeSpan(m, u, lib.arena[..], blk, top, free0, free, ptr, ptr, hi);
      SamePayload(m, u, blk, ptr);
      KeptBelow(m, lib.arena[..], ptr, blk[ptr].n, hi);
      blk := Fused(blk, ptr, hi, true);
    }

    /** The block above leaves the list, and the block takes its words. */
    method NextTags(ptr: int, newsize: int, copySize: int)
      requires Valid() && Live(blk, ptr) && copySize == 4 * blk[ptr].n < newsize
      requires End(blk, ptr) in blk && !blk[End(blk, ptr)].alloc && newsize - copySize <= 4 * blk[End(blk, ptr)].n
      modifies this`freeListp, this`free, this`blk, lib.arena
      ensures Valid() && Owned() - {ptr} == old(Owned()) - {ptr}
      ensures 2 <= old(blk)[ptr].n && KeepsBytes(old(lib.arena[..]), ptr, lib.arena[..], ptr, copySize - 8)
      ensures End(old(blk), End(old(blk), ptr)) >= End(old(blk), ptr) >= ptr
              && blk == Fused(old(blk), ptr, End(old(blk), End(old(blk), ptr)), true)
    {
      hide Tiled, Even, Tagged, Linked, Coalesced, ListsFree, GetSize, GetAlloc, Payload, Payloads, Without, Unlinked, KeepsBytes,
           IndexOf, HeadOf;
      ghost var next, hi, free0, m: seq<Word> := End(blk, ptr), End(blk, End(blk, ptr)), free, lib.arena[..];
      NeighbourTags(m, blk, top, ptr);
      FreeIsListed(blk, free, next);
      var freesize := GetSize(lib.arena[Hdrp(NextBlkp(ptr))]) - (newsize - copySize);
      RemoveBlock(NextBlkp(ptr));
      ghost var u: seq<Word> := lib.arena[..];
      UnlinkFree(m, u, blk, top, free0, free0, NULL, next);
      WithoutProps(free0, next);
      NeighbourTags(u, blk, top, ptr);
      SpanDrops(blk, top, free0, free, ptr, ptr, hi);
      TakeUp(ptr, newsize + freesize, m, free0, hi);
    }

    /** The block takes in the free block above it. */
    method ReallocNext(ptr: int, newsize: int, copySize: int, ghost size: int)
      requires 0 <= size <= newsize - 8
      requires Valid() && Live(blk, ptr) && copySize == 4 * blk[ptr].n < newsize
      requires End(blk, ptr) in blk && !blk[End(blk, ptr)].alloc && newsize - copySize <= 4 * blk[End(blk, ptr)].n
      modifies this`freeListp, this`free, this`blk, lib.arena
      ensures 2 <= old(blk)[ptr].n && Resized(ptr, size, ptr)
      ensures End(old(blk), End(old(blk), ptr)) >= ptr
              && blk == Fused(old(blk), ptr, End(old(blk), End(old(blk), ptr)), true)
    {
      hide WellFormedBut, Payloads, KeepsBytes;
      ghost var m: seq<Word> := lib.arena[..];
      NextTags(ptr, newsize, copySize);
      KeepsShorter(m, ptr, lib.arena[..], ptr, Least(size, copySize - 8), copySize - 8);
    }

    /** The tags of the run are written, and the words of the block copied down over them; v is in between. */
    method TagAndCopy(ptr: int, newp: int, total: int, copySize: int) returns (ghost v: seq<Word>)
      requires 1 <= newp <= ptr && 8 <= total && total % 8 == 0 && copySize % 4 == 0 && 0 <= copySize
      requires newp + total / 4 - 1 <= lib.arena.Length < 0x2000_0000 && 4 * ptr + copySize <= 4 * lib.arena.Length
      modifies lib.arena
      ensures v == old(lib.arena[..])[newp - 1 := total + 1][newp + total / 4 - 2 := total + 1]
      ensures CopiedDown(v, lib.arena[..], ptr, newp, copySize / 4)
    {
      hide ByteAt;
      WriteTags(newp, total, 1);
      v := lib.arena[..];
      Memcpy(lib.arena, 4 * newp, 4 * ptr, copySize);
    }

    /** Everything but the list: the tags of the run, and the payload moved down to its front. */
    method Slide(ptr: int, newp: int, total: int, copySize: int, ghost m: seq<Word>, ghost free0: seq<int>, ghost hi: int)
      requires lib.Valid() && lib.brk == 4 * top && heapListp == PROLOGUE && freeListp == HeadOf(free)
      requires WellFormed(m, blk, top, free0) && Span(blk, top, ptr, newp, hi) && newp != ptr && Drops(free0, free, newp, hi)
      requires Tagged(lib.arena[..], blk, top) && Linked(lib.arena[..], free) && Payloads(lib.arena[..], blk) == Payloads(m, blk)
      requires |m| == lib.arena.Length && total == 4 * (hi - newp) && copySize == 4 * blk[ptr].n
      modifies this`blk, lib.arena
      ensures Valid() && Owned() - {newp} == Payloads(m, old(blk)) - {ptr}
      ensures newp <= hi && Live(blk, newp) && blk == Fused(old(blk), newp, hi, true)
      ensures KeepsBytes(m, ptr, lib.arena[..], newp, copySize - 8)
    {
      hide Tiled, Even, Tagged, Linked, Coalesced, ListsFree, GetSize, GetAlloc, Payload, Payloads, Without,
           Unlinked, Prev, ByteAt, Drops, Span, KeepsBytes;
      ghost var u: seq<Word> := lib.arena[..];
      SpanIsRun(blk, top, ptr, newp, hi);
      SpanEven(blk, top, ptr, newp, hi);
      NeighbourTags(u, blk, top, ptr);
      assert Live(Fused(blk, newp, hi, true), newp) && Tag(Block(hi - newp, true)) == total + 1;
      hide Live, Fused, Tag, Run, Nodes, LinkAt, Calm;
      ghost var v := TagAndCopy(ptr, newp, total, copySize);
      SlideDone(m, u, v, lib.arena[..], blk, top, free0, free, ptr, newp, hi);
      blk := Fused(blk, newp, hi, true);
    }

    /** The block slides down into the free block below it. */
    method ReallocPrev(ptr: int, newsize: int, copySize: int, ghost size: int) returns (newp: int)
      requires 0 <= size <= newsize - 8
      requires Valid() && Live(blk, ptr) && copySize == 4 * blk[ptr].n < newsize
      requires !blk[Prev(blk, top, ptr)].alloc && newsize - copySize <= 4 * blk[Prev(blk, top, ptr)].n
      modifies this`freeListp, this`free, this`blk, lib.arena
      ensures newp == old(Prev(blk, top, ptr)) && PROLOGUE <= newp && 2 <= old(blk)[ptr].n && Resized(ptr, size, newp)
      ensures newp <= End(old(blk), ptr) && blk == Fused(old(blk), newp, End(old(blk), ptr), true)
    {
      hide Tiled, Even, Tagged, Linked, Coalesced, ListsFree, GetSize, GetAlloc, Payload, Payloads, Without, Unlinked, Prev, KeepsBytes;
      ghost var prev, free0, m: seq<Word> := Prev(blk, top, ptr), free, lib.arena[..];
      NeighbourTags(m, blk, top, ptr);
      FreeIsListed(blk, free, prev);
      var freesize := GetSize(lib.arena[Hdrp(PrevBlkp(ptr))]) - (newsize - copySize);
      RemoveBlock(PrevBlkp(ptr));
      UnlinkFree(m, lib.arena[..], blk, top, free0, free0, NULL, prev);
      WithoutProps(free0, prev);
      NeighbourTags(lib.arena[..], blk, top, ptr);
      SpanDrops(blk, top, free0, free, ptr, prev, End(blk, ptr));
      newp := PrevBlkp(ptr);
      Slide(ptr, newp, newsize + freesize, copySize, m, free0, End(blk, ptr));
      KeepsShorter(m, ptr, lib.arena[..], newp, Least(size, copySize - 8), copySize - 8);
    }

    /** The block slides down into the free block below it, and takes in the one above as well. */
    method ReallocBoth(ptr: int, newsize: int, copySize: int, ghost size: int) returns (newp: int)
      requires 0 <= size <= newsize - 8
      requires Valid() && Live(blk, ptr) && copySize == 4 * blk[ptr].n < newsize
      requires !blk[Prev(blk, top, ptr)].alloc && End(blk, ptr) in blk && !blk[End(blk, ptr)].alloc
      requires newsize - copySize <= 4 * blk[Prev(blk, top, ptr)].n + 4 * blk[End(blk, ptr)].n
      modifies this`freeListp, this`free, this`blk, lib.arena
      ensures newp == old(Prev(blk, top, ptr)) && PROLOGUE <= newp && 2 <= old(blk)[ptr].n && Resized(ptr, size, newp)
      ensures newp <= End(old(blk), End(old(blk), ptr))
              && blk == Fused(old(blk), newp, End(old(blk), End(old(blk), ptr)), true)
    {
      hide Tiled, Even, Tagged, Linked, Coalesced, ListsFree, GetSize, GetAlloc, Payload, Payloads, Without, Unlinked, Prev, KeepsBytes,
           IndexOf, HeadOf;
      ghost var prev, next, free0, m: seq<Word> := Prev(blk, top, ptr), End(blk, ptr), free, lib.arena[..];
      NeighbourTags(m, blk, top, ptr);
      FreeIsListed(blk, free, prev);
      FreeIsListed(blk, free, next);
      var freesize := GetSize(lib.arena[Hdrp(NextBlkp(ptr))]) + GetSize(lib.arena[Hdrp(PrevBlkp(ptr))]) - (newsize - copySize);
      RemoveBlock(PrevBlkp(ptr));
      UnlinkFree(m, lib.arena[..], blk, top, free0, free0, NULL, prev);
      WithoutProps(free0, prev);
      ghost var m1: seq<Word> := lib.arena[..];
      NeighbourTags(m1, blk, top, ptr);
      RemoveBlock(NextBlkp(ptr));
      UnlinkFree(m1, lib.arena[..], blk, top, free0, Without(free0, prev), NULL, next);
      WithoutProps(Without(free0, prev), next);
      NeighbourTags(lib.arena[..], blk, top, ptr);
      SpanDrops(blk, top, free0, free, ptr, prev, End(blk, next));
      newp := PrevBlkp(ptr);
      Slide(ptr, newp, newsize + freesize, copySize, m, free0, End(blk, next));
      KeepsShorter(m, ptr, lib.arena[..], newp, Least(size, copySize - 8), copySize - 8);
    }

    /** The block and the new words, off the list, become a larger block and a rest, both allocated. */
    method GrowTags(ptr: int, newsize: int, freesize: int, ghost next: int)
      requires lib.Valid() && lib.brk == 4 * top && heapListp == PROLOGUE && freeListp == HeadOf(free)
      requires Tiled(blk, top) && Even(blk, top) && Tagged(lib.arena[..], blk, top) && Linked(lib.arena[..], free)
      requires Live(blk, ptr) && next == End(blk, ptr) && next in blk && !blk[next].alloc && End(blk, next) == top
      requires ListsFree(blk, free, next) && Coalesced(blk, next)
      requires newsize % 8 == 0 && freesize >= 16 && 8 <= 4 * blk[ptr].n < newsize && newsize + freesize == 4 * (top - ptr)
      modifies this`blk, lib.arena
      ensures Valid() && Live(blk, ptr) && blk[ptr].n == newsize / 4 && Live(blk, ptr + newsize / 4)
      ensures Owned() - {ptr, ptr + newsize / 4} == Payloads(old(lib.arena[..]), old(blk)) - {ptr}
      ensures KeepsBytes(old(lib.arena[..]), ptr, lib.arena[..], ptr, 4 * old(blk)[ptr].n - 8)
      ensures 1 <= ptr <= lib.arena.Length && NextBlkp(ptr) == ptr + newsize / 4
    {
      hide Tiled, Even, Tagged, Linked, Coalesced, ListsFree, GetSize, GetAlloc, Payload, Payloads, TwoOf, KeepsBytes;
      ghost var k, n, u: seq<Word> := newsize / 4, blk[ptr].n, lib.arena[..];
      ReadTags(u, blk, top, ptr);
      ReadTags(u, blk, top, next);
      GrowSizes(blk, top, ptr, newsize, freesize);
      WriteTwoBlocks(ptr, newsize, freesize, 1);
      GrowTail(u, lib.arena[..], blk, top, free, ptr, k, top);
      KeptBelow(u, lib.arena[..], ptr, n, top);
      blk := TwoOf(blk, ptr, k, top);
    }

    /** The same, and the rest is freed. */
    method GrowSplit(ptr: int, newsize: int, freesize: int, ghost next: int)
      requires lib.Valid() && lib.brk == 4 * top && heapListp == PROLOGUE && freeListp == HeadOf(free)
      requires Tiled(blk, top) && Even(blk, top) && Tagged(lib.arena[..], blk, top) && Linked(lib.arena[..], free)
      requires Live(blk, ptr) && next == End(blk, ptr) && next in blk && !blk[next].alloc && End(blk, next) == top
      requires ListsFree(blk, free, next) && Coalesced(blk, next)
      requires newsize % 8 == 0 && freesize >= 16 && 8 <= 4 * blk[ptr].n < newsize && newsize + freesize == 4 * (top - ptr)
      modifies this`freeListp, this`free, this`blk, lib.arena
      ensures Valid() && Owned() - {ptr} == Payloads(old(lib.arena[..]), old(blk)) - {ptr}
      ensures Live(blk, ptr) && blk[ptr].n == newsize / 4
      ensures KeepsBytes(old(lib.arena[..]), ptr, lib.arena[..], ptr, 4 * old(blk)[ptr].n - 8)
    {
      hide Tiled, Even, Tagged, Linked, Coalesced, ListsFree, GetSize, GetAlloc, Payload, Payloads, Merged, MergedList, KeepsBytes;
      ghost var k, n, u: seq<Word> := newsize / 4, blk[ptr].n, lib.arena[..];
      GrowTags(ptr, newsize, freesize, next);
      ghost var w: seq<Word> := lib.arena[..];
      OwnedWords(w, blk, top, ptr);
      ReadTags(w, blk, top, ptr);
      MmFree(NextBlkp(ptr));
      KeptPrefix(w, lib.arena[..], blk, top, free, ptr, k);
      KeepsTrans(u, ptr, w, ptr, lib.arena[..], ptr, 4 * (n - 2), 4 * (k - 2));
    }

    /** The block is the last one: the heap grows by one chunk, and what the block does not take of it is
        freed.  The code never checks that enough is left to free. */
    method GrowBlock(ptr: int, newsize: int, copySize: int) returns (o: Outcome)
      requires Valid() && Live(blk, ptr) && copySize == 4 * blk[ptr].n < newsize && newsize % 8 == 0
      requires End(blk, ptr) == top
      modifies this`freeListp, this`free, this`blk, this`top, lib, lib.arena
      ensures o == Returned(NULL) <==> Refused(old(top), CHUNKSIZE / 4)
      ensures o == Returned(NULL) ==> Untouched()
      ensures o == Returned(ptr) <==> !Refused(old(top), CHUNKSIZE / 4) && newsize - copySize <= CHUNKSIZE - 16
      ensures 2 <= old(blk)[ptr].n && ptr != NULL
      ensures o == Returned(ptr) ==> Valid() && Owned() - {ptr} == old(Owned()) - {ptr}
                                     && KeepsBytes(old(lib.arena[..]), ptr, lib.arena[..], ptr, copySize - 8)
      ensures o == Returned(ptr) ==> Live(blk, ptr) && blk[ptr].n == newsize / 4 && top == old(top) + CHUNKSIZE / 4
      ensures o == BadFree(ptr + newsize / 4) <==> !Refused(old(top), CHUNKSIZE / 4) && newsize - copySize > CHUNKSIZE - 16
      ensures o.BadFree? ==> forall g :: Tiled(g, top) ==> !Live(g, o.p)
      ensures old(top) <= top <= old(top) + CHUNKSIZE / 4
      ensures lib.refusals == old(lib.refusals) + if o == Returned(NULL) then 1 else 0
    {
      hide Tiled, Even, Tagged, Linked, Coalesced, ListsFree, GetSize, GetAlloc, Payload, Payloads, Without, Unlinked, Merged, MergedList, RunLo,
           KeepsBytes, Refused;
      ghost var blk0, top0, free0, m: seq<Word> := blk, top, free, lib.arena[..];
      ReadTags(m, blk, top, ptr);
      GrownAlone(blk, top, free, ptr, CHUNKSIZE / 4);
      var p := ExtendHeap(CHUNKSIZE / 4);
      if p == NULL {
        return Returned(NULL);
      }
      assert blk == Grown(blk0, top0, CHUNKSIZE / 4) && free == [top0] + free0;
      ghost var m1: seq<Word> := lib.arena[..];
      NeighbourTags(m1, blk, top, ptr);
      SamePayloadBytes(m, m1, blk0, blk, ptr);
      var freesize := GetSize(lib.arena[Hdrp(NextBlkp(ptr))]) - (newsize - copySize);
      if freesize < 16 {
        // The tags written next leave less than 16 bytes below the break, or nothing, or wrap around.
        forall g | Tiled(g, top) ensures !Live(g, ptr + newsize / 4) { NoRoomNoBlock(g, top, ptr + newsize / 4); }
        return BadFree(ptr + newsize / 4);
      }
      GrowTake(ptr, newsize, freesize, top0, free0);
      KeepsTrans(m, ptr, m1, ptr, lib.arena[..], ptr, copySize - 8, copySize - 8);
      return Returned(ptr);
    }

    /** The same, for the caller's bytes. */
    method ReallocGrow(ptr: int, newsize: int, copySize: int, ghost size: int) returns (o: Outcome)
      requires 0 <= size <= newsize - 8
      requires Valid() && Live(blk, ptr) && copySize == 4 * blk[ptr].n < newsize && newsize % 8 == 0
      requires End(blk, ptr) == top
      modifies this`freeListp, this`free, this`blk, this`top, lib, lib.arena
      ensures o == Returned(NULL) <==> Refused(old(top), CHUNKSIZE / 4)
      ensures o == Returned(NULL) ==> Untouched()
      ensures o == Returned(ptr) <==> !Refused(old(top), CHUNKSIZE / 4) && newsize - copySize <= CHUNKSIZE - 16
      ensures 2 <= old(blk)[ptr].n && ptr != NULL
      ensures o == Returned(ptr) ==> Resized(ptr, size, ptr) && ptr in blk && blk[ptr].n == newsize / 4 && top == old(top) + CHUNKSIZE / 4
      ensures o == BadFree(ptr + newsize / 4) <==> !Refused(old(top), CHUNKSIZE / 4) && newsize - copySize > CHUNKSIZE - 16
      ensures o.BadFree? ==> forall g :: Tiled(g, top) ==> !Live(g, o.p)
      ensures old(top) <= top <= old(top) + CHUNKSIZE / 4
      ensures lib.refusals == old(lib.refusals) + if o == Returned(NULL) then 1 else 0
    {
      hide WellFormedBut, Payloads, KeepsBytes, Refused, Untouched;
      WholeWords(newsize);
      ghost var m: seq<Word> := lib.arena[..];
      o := GrowBlock(ptr, newsize, copySize);
      if o == Returned(ptr) { KeepsShorter(m, ptr, lib.arena[..], ptr, Least(size, copySize - 8), copySize - 8); }
    }

    /** The new block leaves the list, the block takes what it needs of it, and the rest is freed. */
    method GrowTake(ptr: int, newsize: int, freesize: int, ghost next: int, ghost free0: seq<int>)
      requires Valid() && free == [next] + free0 && next !in free0 && Without([next] + free0, next) == free0
      requires Live(blk, ptr) && next == End(blk, ptr) && next in blk && !blk[next].alloc && End(blk, next) == top
      requires newsize % 8 == 0 && freesize >= 16 && 8 <= 4 * blk[ptr].n < newsize && newsize + freesize == 4 * (top - ptr)
      modifies this`freeListp, this`free, this`blk, lib.arena
      ensures Valid() && Owned() - {ptr} == old(Owned()) - {ptr}
      ensures Live(blk, ptr) && blk[ptr].n == newsize / 4
      ensures KeepsBytes(old(lib.arena[..]), ptr, lib.arena[..], ptr, 4 * old(blk)[ptr].n - 8)
    {
      hide Tiled, Even, Tagged, Linked, Coalesced, ListsFree, GetSize, GetAlloc, Payload, Payloads, Without, Unlinked, KeepsBytes;
      ghost var n, m: seq<Word> := blk[ptr].n, lib.arena[..];
      NeighbourTags(m, blk, top, ptr);
      assert free[0] == next;
      RemoveBlock(NextBlkp(ptr));
      ghost var u: seq<Word> := lib.arena[..];
      UnlinkFree(m, u, blk, top, [next] + free0, [next] + free0, NULL, next);
      GrownUnlisted(blk, top, free0, next);
      SamePayloadBytes(m, u, blk, blk, ptr);
      GrowSplit(ptr, newsize, freesize, next);
      KeepsTrans(m, ptr, u, ptr, lib.arena[..], ptr, 4 * n - 8, 4 * n - 8);
    }

    /** memcpy from one live block into the payload of another. */
    method CopyOut(newp: int, ptr: int, n: int)
      requires Valid() && Live(blk, ptr) && Live(blk, newp) && newp != ptr
      requires 0 < n <= 4 * (blk[newp].n - 2) && n <= 4 * blk[ptr].n
      modifies lib.arena
      ensures Valid() && Owned() - {newp} == old(Owned()) - {newp}
      ensures 8 <= 4 * blk[ptr].n && KeepsBytes(old(lib.arena[..]), ptr, lib.arena[..], newp, Least(n, 4 * blk[ptr].n - 8))
    {
      hide Even, Tagged, Linked, Coalesced, ListsFree, Payload, Payloads, KeepsBytes, ByteAt;
      ghost var m: seq<Word> := lib.arena[..];
      ReadTags(m, blk, top, ptr);
      ReadTags(m, blk, top, newp);
      NoneInside(blk, top, ptr, newp);
      hide Tiled;
      Memcpy(lib.arena, 4 * newp, 4 * ptr, n);
      WritePayload(m, lib.arena[..], blk, top, free, newp);
      MovedBytes(m, m, lib.arena[..], ptr, newp, blk[ptr], Least(n, 4 * blk[ptr].n - 8));
    }

    /** The payload moves to a new block, and the old block is freed. */
    method ReallocMove(ptr: int, size: int, copySize0: int) returns (o: Outcome)
      requires Valid() && Live(blk, ptr) && copySize0 == 4 * blk[ptr].n && NoWrap(size) && size > 0
      modifies this`freeListp, this`free, this`blk, this`top, lib, lib.arena
      ensures 2 <= old(blk)[ptr].n && (forall f :: f in old(free) ==> f in old(blk))
      ensures o == Exits <==> FirstFit(old(blk), old(free), AdjustedSize(size) / 4) == NULL
                              && Refused(old(top), ExtendSize(AdjustedSize(size)) / 4)
      ensures o == Exits ==> Untouched()
      ensures o != Exits ==> o.Returned? && o.p != NULL && o.p !in old(Owned()) && Resized(ptr, size, o.p)
      ensures o != Exits ==> !Live(old(blk), o.p) && o.p in blk && 4 * blk[o.p].n < AdjustedSize(size) + 16
      ensures old(top) <= top <= old(top) + ExtendSize(AdjustedSize(size)) / 4
      ensures lib.refusals == old(lib.refusals) + if o == Exits then 1 else 0
    {
      hide Tiled, Even, Tagged, Linked, Coalesced, ListsFree, Payload, Payloads, Merged, MergedList, KeepsBytes, Refused,
           AdjustedSize, FirstFit, Placed, PlacedList, CutTo, FreeTail, OthersStay;
      ghost var blk0, top0, free0, m: seq<Word> := blk, top, free, lib.arena[..];
      ReadTags(m, blk, top, ptr);
      var newp := MmMalloc(size);
      if newp == NULL {
        return Exits;
      }
      ghost var blk1, top1, free1, m1: seq<Word> := blk, top, free, lib.arena[..];
      OwnedLive(m, blk0, ptr);
      if Live(blk0, newp) { OwnedLive(m, blk0, newp); }
      OwnedKeeps(m, blk0, top0, free0, m1, blk1, top1, free1, ptr);
      var copySize := copySize0;
      if size < copySize {
        copySize := size;
      }
      CopyOut(newp, ptr, copySize);
      ghost var m2: seq<Word> := lib.arena[..];
      ghost var c := Least(copySize, copySize0 - 8);
      KeepsShorter(m, ptr, m1, ptr, c, copySize0 - 8);
      KeepsTrans(m, ptr, m1, ptr, m2, newp, c, c);
      OwnedLive(m2, blk1, newp);
      MmFree(ptr);
      OwnedKeeps(m2, blk1, top1, free1, lib.arena[..], blk, top, free, newp);
      KeepsTrans(m, ptr, m2, newp, lib.arena[..], newp, c, 4 * (blk[newp].n - 2));
      return Returned(newp);
    }

    /** The last two branches: grow the heap behind the last block, or move. */
    method ReallocElsewhere(ptr: int, size: int, newsize: int, copySize: int) returns (o: Outcome)
      requires Valid() && Live(blk, ptr) && ReallocNoWrap(size) && size > 0 && newsize == AdjustedSize(size)
      requires copySize == 4 * blk[ptr].n && newsize != copySize && newsize + 16 > copySize
      requires !NeighboursSuffice(blk, top, ptr, newsize / 4)
      modifies this`freeListp, this`free, this`blk, this`top, lib, lib.arena
      ensures Tiled(old(blk), old(top)) && (forall f :: f in old(free) ==> f in old(blk)) && 2 <= old(blk)[ptr].n
      ensures EndsAs(old(blk), old(top), old(free), ptr, newsize, o, blk, top)
      ensures old(top) <= top <= old(top) + ExtendSize(AdjustedSize(size)) / 4
      ensures o == Returned(NULL) || o == Exits ==> Untouched()
      ensures o.Returned? && o.p != NULL ==> Resized(ptr, size, o.p)
      ensures o.BadFree? ==> forall g :: Tiled(g, top) ==> !Live(g, o.p)
      ensures lib.refusals == old(lib.refusals) + if o == Returned(NULL) || o == Exits then 1 else 0
    {
      hide Even, Tagged, Linked, Coalesced, ListsFree, Payload, Payloads, KeepsBytes, Refused, GetSize, GetAlloc, FirstFit, Prev,
           Resized, Untouched, EndsAs;
      ghost var blk0, top0, free0, m: seq<Word> := blk, top, free, lib.arena[..];
      AdjustedHoldsRequest(size);
      NodesAreBlocks(blk, top, free);
      NeighbourTags(m, blk, top, ptr);
      LastOrNot(m, blk, top, ptr);
      WholeWords(newsize);
      hide Tiled, AdjustedSize, NeighboursSuffice;
      if newsize > copySize && GetSize(lib.arena[Hdrp(NextBlkp(ptr))]) == 0 {
        o := ReallocGrow(ptr, newsize, copySize, size);
      } else {
        o := ReallocMove(ptr, size, copySize);
      }
      EndsElsewhere(blk0, top0, free0, ptr, newsize, o, blk, top);
    }

    /** The branches that are left when neither the size, nor a shrink, nor the block above has settled it. */
    method ReallocRest(ptr: int, size: int, newsize: int, copySize: int) returns (o: Outcome)
      requires Valid() && Live(blk, ptr) && ReallocNoWrap(size) && size > 0 && newsize == AdjustedSize(size)
      requires copySize == 4 * blk[ptr].n && newsize != copySize && newsize + 16 > copySize
      requires !(newsize > copySize && End(blk, ptr) in blk && !blk[End(blk, ptr)].alloc && newsize - copySize <= 4 * blk[End(blk, ptr)].n)
      modifies this`freeListp, this`free, this`blk, this`top, lib, lib.arena
      ensures Tiled(old(blk), old(top)) && (forall f :: f in old(free) ==> f in old(blk)) && 2 <= old(blk)[ptr].n
      ensures EndsAs(old(blk), old(top), old(free), ptr, newsize, o, blk, top)
      ensures old(top) <= top <= old(top) + ExtendSize(AdjustedSize(size)) / 4
      ensures o == Returned(NULL) || o == Exits ==> Untouched()
      ensures o.Returned? && o.p != NULL ==> Resized(ptr, size, o.p)
      ensures o.BadFree? ==> forall g :: Tiled(g, top) ==> !Live(g, o.p)
      ensures lib.refusals == old(lib.refusals) + if o == Returned(NULL) || o == Exits then 1 else 0
    {
      hide Even, Tagged, Linked, Coalesced, ListsFree, Payload, Payloads, Merged, MergedList, KeepsBytes, Refused, GetSize, GetAlloc, Split, Fused,
           FirstFit, Placed, PlacedList, Prev, EndsAs;
      ghost var blk0, top0, free0, m: seq<Word> := blk, top, free, lib.arena[..];
      AdjustedHoldsRequest(size);
      NodesAreBlocks(blk, top, free);
      NeighbourTags(m, blk, top, ptr);
      SufficeInBytes(blk, top, ptr, newsize);
      hide Tiled, AdjustedSize, Resized, Untouched, NeighboursSuffice;
      var newp;
      if newsize > copySize && GetAlloc(lib.arena[Hdrp(PrevBlkp(ptr))]) == 0
         && newsize - copySize <= GetSize(lib.arena[Hdrp(PrevBlkp(ptr))]) {
        newp := ReallocPrev(ptr, newsize, copySize, size);
        EndsBelow(blk0, top0, free0, ptr, newsize, newp, blk);
        return Returned(newp);
      }
      if newsize > copySize && GetAlloc(lib.arena[Hdrp(PrevBlkp(ptr))]) == 0 && GetAlloc(lib.arena[Hdrp(NextBlkp(ptr))]) == 0
         && newsize - copySize <= GetSize(lib.arena[Hdrp(PrevBlkp(ptr))]) + GetSize(lib.arena[Hdrp(NextBlkp(ptr))]) {
        newp := ReallocBoth(ptr, newsize, copySize, size);
        EndsBoth(blk0, top0, free0, ptr, newsize, newp, blk);
        return Returned(newp);
      }
      o := ReallocElsewhere(ptr, size, newsize, copySize);
    }

    /** The block has the right size already. */
    method ReallocSame(ptr: int, copySize: int, ghost size: int)
      requires Valid() && Live(blk, ptr) && copySize == 4 * blk[ptr].n && 0 <= size <= copySize - 8
      ensures Resized(ptr, size, ptr) && Untouched()
    {
      hide Even, Tagged, Linked, Coalesced, ListsFree, Payload, Payloads, KeepsBytes;
      ghost var m: seq<Word> := lib.arena[..];
      ReadTags(m, blk, top, ptr);
      SamePayloadBytes(m, m, blk, blk, ptr);
      KeepsShorter(m, ptr, m, ptr, Least(size, copySize - 8), copySize - 8);
    }

    /** mm_realloc of a live block to at least one byte. */
    method ReallocLive(ptr: int, size: int) returns (o: Outcome)
      requires Valid() && Live(blk, ptr) && ReallocNoWrap(size) && size > 0
      modifies this`freeListp, this`free, this`blk, this`top, lib, lib.arena
      ensures Tiled(old(blk), old(top)) && (forall f :: f in old(free) ==> f in old(blk)) && 2 <= old(blk)[ptr].n
      ensures EndsAs(old(blk), old(top), old(free), ptr, AdjustedSize(size), o, blk, top)
      ensures old(top) <= top <= old(top) + ExtendSize(AdjustedSize(size)) / 4
      ensures o == Returned(NULL) || o == Exits || 4 * old(blk)[ptr].n == AdjustedSize(size) ==> Untouched()
      ensures o.Returned? && o.p != NULL ==> Resized(ptr, size, o.p)
      ensures o.BadFree? ==> forall g :: Tiled(g, top) ==> !Live(g, o.p)
      ensures lib.refusals == old(lib.refusals) + if o == Returned(NULL) || o == Exits then 1 else 0
    {
      hide Even, Tagged, Linked, Coalesced, ListsFree, Payload, Payloads, Merged, MergedList, KeepsBytes, Refused, GetSize, GetAlloc, Split, Fused,
           FirstFit, Placed, PlacedList, Prev, EndsAs;
      ghost var blk0, top0, free0, m: seq<Word> := blk, top, free, lib.arena[..];
      AdjustedHoldsRequest(size);
      var newsize := if size <= 8 then 16 else 8 * ((size + 15) % 0x1_0000_0000 / 8);
      assert newsize == AdjustedSize(size);
      hide AdjustedSize, Resized, Untouched;
      NodesAreBlocks(blk, top, free);
      NeighbourTags(m, blk, top, ptr);
      WholeWords(newsize);
      hide Tiled;
      var copySize := GetSize(lib.arena[Hdrp(ptr)]);
      if newsize == copySize {
        ReallocSame(ptr, copySize, size);
        EndsAtOnce(blk0, top0, free0, ptr, newsize, blk);
        return Returned(ptr);
      }
      if newsize + 16 <= copySize {
        ReallocShrink(ptr, newsize, copySize, size);
        EndsAtOnce(blk0, top0, free0, ptr, newsize, blk);
        return Returned(ptr);
      }
      if newsize > copySize && GetAlloc(lib.arena[Hdrp(NextBlkp(ptr))]) == 0
         && newsize - copySize <= GetSize(lib.arena[Hdrp(NextBlkp(ptr))]) {
        ReallocNext(ptr, newsize, copySize, size);
        EndsAbove(blk0, top0, free0, ptr, newsize);
        return Returned(ptr);
      }
      o := ReallocRest(ptr, size, newsize, copySize);
    }

    /** mm_realloc: NULL is mm_malloc, size 0 is handed to the wrong free, everything else resizes. */
    method MmRealloc(ptr: int, size: int) returns (o: Outcome)
      requires Valid() && (ptr == NULL || Live(blk, ptr)) && ReallocNoWrap(size)
      modifies this`freeListp, this`free, this`blk, this`top, lib, lib.arena
      ensures Tiled(old(blk), old(top)) && (forall f :: f in old(free) ==> f in old(blk))
      ensures ptr == NULL ==> o.Returned?
      ensures ptr == NULL ==> (o.p == NULL <==> size == 0 || (FirstFit(old(blk), old(free), AdjustedSize(size) / 4) == NULL
                                                              && Refused(old(top), ExtendSize(AdjustedSize(size)) / 4)))
      ensures ptr == NULL && o.p != NULL ==> Valid() && Live(blk, o.p) && size <= 4 * (blk[o.p].n - 2)
                                             && o.p !in old(Owned()) && Owned() - {o.p} == old(Owned())
      ensures ptr == NULL && o.p != NULL ==> 4 * blk[o.p].n < AdjustedSize(size) + 16 && OthersStay(old(blk), blk, o.p)
      ensures ptr == NULL && o.p != NULL && top == old(top) ==>
                o.p in old(blk) && !old(blk)[o.p].alloc && CutTo(blk, free, o.p, AdjustedSize(size), End(old(blk), o.p))
      ensures ptr == NULL && o.p != NULL && top != old(top) ==>
                FreeTail(old(blk), old(top), o.p) && CutTo(blk, free, o.p, AdjustedSize(size), top)
      ensures o == CallsLibcFree <==> ptr != NULL && size == 0
      ensures ptr != NULL ==> 2 <= old(blk)[ptr].n
      ensures old(top) <= top <= old(top) + ExtendSize(AdjustedSize(size)) / 4
      ensures ptr != NULL && size > 0 ==>
                (o.BadFree? <==> GrowBranch(old(blk), old(top), ptr, AdjustedSize(size) / 4) && !Refused(old(top), CHUNKSIZE / 4)
                                 && AdjustedSize(size) - 4 * old(blk)[ptr].n > CHUNKSIZE - 16)
      ensures ptr != NULL && size > 0 ==>
                (o == Returned(NULL) <==> GrowBranch(old(blk), old(top), ptr, AdjustedSize(size) / 4) && Refused(old(top), CHUNKSIZE / 4))
      ensures ptr != NULL && size > 0 ==>
                (o == Exits <==> MoveBranch(old(blk), old(top), ptr, AdjustedSize(size) / 4)
                                 && FirstFit(old(blk), old(free), AdjustedSize(size) / 4) == NULL
                                 && Refused(old(top), ExtendSize(AdjustedSize(size)) / 4))
      ensures ptr != NULL && size > 0 && 4 * old(blk)[ptr].n == AdjustedSize(size) ==> o == Returned(ptr) && Untouched()
      ensures ptr != NULL && size > 0 && 4 * old(blk)[ptr].n >= AdjustedSize(size) + 16 ==>
                o == Returned(ptr) && ptr in blk && 4 * blk[ptr].n == AdjustedSize(size) && top == old(top)
      ensures ptr != NULL && size > 0 && NeighboursSuffice(old(blk), old(top), ptr, AdjustedSize(size) / 4) ==>
                o.Returned? && o.p != NULL && top == old(top)
      ensures ptr != NULL && size > 0 ==> TakesIn(old(blk), old(top), ptr, AdjustedSize(size) / 4, blk, o)
      ensures ptr != NULL && size > 0 && GrowBranch(old(blk), old(top), ptr, AdjustedSize(size) / 4) && o.Returned? && o.p != NULL ==>
                o.p == ptr && ptr in blk && 4 * blk[ptr].n == AdjustedSize(size) && top == old(top) + CHUNKSIZE / 4
      ensures ptr != NULL && size > 0 && MoveBranch(old(blk), old(top), ptr, AdjustedSize(size) / 4) && o != Exits ==>
                o.Returned? && o.p !in old(Owned()) && o.p in blk && 4 * blk[o.p].n < AdjustedSize(size) + 16
      ensures ptr != NULL && o.Returned? && o.p != NULL ==> Resized(ptr, size, o.p)
      ensures o.BadFree? ==> forall g :: Tiled(g, top) ==> !Live(g, o.p)
      ensures o == Returned(NULL) || o == Exits || o == CallsLibcFree ==> Untouched()
      ensures lib.refusals == old(lib.refusals) + if size > 0 && (o == Returned(NULL) || o == Exits) then 1 else 0
    {
      hide Even, Tagged, Linked, Coalesced, ListsFree, Payload, Payloads, KeepsBytes, Refused, FirstFit, AdjustedSize,
           Placed, PlacedList, GrowBranch, MoveBranch, TakesIn, CutTo, FreeTail, OthersStay;
      NodesAreBlocks(blk, top, free);
      if ptr == NULL {
        var p := MmMalloc(size);
        return Returned(p);
      }
      if size <= 0 {
        return CallsLibcFree;
      }
      ghost var blk0, top0, free0, m: seq<Word> := blk, top, free, lib.arena[..];
      AdjustedHoldsRequest(size);
      o := ReallocLive(ptr, size);
      EndsTell(blk0, top0, free0, ptr, AdjustedSize(size), o, blk, top);
      if o.Returned? && o.p in Payloads(m, blk0) { OwnedIsLive(m, blk0, o.p); }
    }
  }

  /** A heap whose one chunk is handed out whole. */
  const OneChunk: Blocks := map[PROLOGUE := Block(2, true), 4 := Block(1024, true)]

  /** mm_malloc(4088) on a fresh heap leads there, and growing that block to 8192 bytes takes more than a chunk. */
  lemma OneChunkInUse()
    ensures AdjustedSize(4088) == 4096 && AdjustedSize(8192) == 8200 && !Refused(4 + CHUNKSIZE / 4, CHUNKSIZE / 4)
    ensures 4 in Grown(Prologue, 4, CHUNKSIZE / 4) && FirstFit(Grown(Prologue, 4, CHUNKSIZE / 4), [4], 1024) == 4
    ensures Placed(Grown(Prologue, 4, CHUNKSIZE / 4), 4, 1024) == OneChunk
    ensures Tiled(OneChunk, 1028) && Live(OneChunk, 4) && GrowBranch(OneChunk, 1028, 4, 2050)
  {
  }

  /** So the bound on growth is needed: three calls from a fresh heap, and mm_realloc frees something that is no block. */
  method GrowthBreaks(lib: Memory) returns (o: Outcome)
    requires lib.Valid() && lib.brk == 0
    modifies lib, lib.arena
    ensures o.BadFree?
  {
    hide Allocator.ValidBut, Allocator.Owned, FirstFit, Placed, PlacedList, AdjustedSize, Refused, GrowBranch, MoveBranch, Grown, KeepsBytes;
    var a := new Allocator(lib);
    var r := a.MmInit();
    OneChunkInUse();
    var p := a.MmMalloc(4088);
    o := a.MmRealloc(p, 8192);
  }
}
