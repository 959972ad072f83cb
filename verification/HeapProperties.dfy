/** What every well-formed heap satisfies, and what the operations do to each other. */
module HeapProperties {
  import opened Sequences
  import opened Shape
  import opened ShapeLemmas
  import opened CoalesceLemmas
  import opened PlaceLemmas
  import A = Allocator

  // ---- the blocks in address order ------------------------------------------------------------

  /** The blocks from a up to the break, in address order, as NEXT_BLKP visits them. */
  ghost function Walk(blk: Blocks, top: int, a: int): seq<int>
    requires Tiled(blk, top) && (a in blk || a == top)
    decreases top - a
  {
    if a == top then [] else assert NextOk(blk, top, a); [a] + Walk(blk, top, End(blk, a))
  }

  /** The walk meets every block above its start, and nothing else. */
  lemma {:induction false} WalkMeetsAll(blk: Blocks, top: int, a: int, b: int)
    requires Tiled(blk, top) && (a in blk || a == top)
    ensures b in Walk(blk, top, a) <==> b in blk && a <= b
    decreases top - a
  {
    if a == top {
      assert b in blk ==> b < End(blk, b) <= top;
    } else {
      assert NextOk(blk, top, a);
      WalkMeetsAll(blk, top, End(blk, a), b);
      if b in blk { NoneInside(blk, top, a, b); }
    }
  }

  ghost function Sum(blk: Blocks, s: seq<int>): int
    requires forall a :: a in s ==> a in blk
  {
    if s == [] then 0 else
      var a := s[0];
      assert a in s && a in blk;
      blk[a].n + Sum(blk, s[1..])
  }

  /** The sizes of the blocks from a on add up to the distance from a to the break. */
  lemma {:induction false} WalkSum(blk: Blocks, top: int, a: int)
    requires Tiled(blk, top) && (a in blk || a == top)
    ensures (forall b :: b in Walk(blk, top, a) ==> b in blk) && Sum(blk, Walk(blk, top, a)) == top - a
    decreases top - a
  {
    forall b | b in Walk(blk, top, a) ensures b in blk { WalkMeetsAll(blk, top, a, b); }
    if a != top {
      assert NextOk(blk, top, a);
      WalkSum(blk, top, End(blk, a));
      assert Walk(blk, top, a)[1..] == Walk(blk, top, End(blk, a));
    }
  }

  /** Conservation: padding, prologue and epilogue take 16 bytes, and the user blocks exactly the rest. */
  lemma HeapIsAccountedFor(m: seq<Word>, blk: Blocks, top: int, free: seq<int>)
    requires WellFormed(m, blk, top, free)
    ensures PROLOGUE + 2 in blk || PROLOGUE + 2 == top
    ensures var users := Walk(blk, top, PROLOGUE + 2);
            && (forall b :: b in users <==> b in blk && b != PROLOGUE)
            && 4 * Sum(blk, users) + 16 == 4 * top
  {
    hide Tagged, Linked, ListsFree, Coalesced, Even;
    assert NextOk(blk, top, PROLOGUE);
    WalkSum(blk, top, PROLOGUE + 2);
    forall b ensures b in Walk(blk, top, PROLOGUE + 2) <==> b in blk && b != PROLOGUE {
      WalkMeetsAll(blk, top, PROLOGUE + 2, b);
    }
  }

  // ---- maximal coalescing ---------------------------------------------------------------------

  ghost function Count(blk: Blocks, s: seq<int>, alloc: bool): nat
    requires forall a :: a in s ==> a in blk
  {
    if s == [] then 0 else
      var a := s[0];
      assert a in s && a in blk;
      (if blk[a].alloc == alloc then 1 else 0) + Count(blk, s[1..], alloc)
  }

  /** Along the heap, free blocks never outnumber allocated ones by more than one, and not even by that
      from an allocated block on. */
  lemma {:induction false} FreeAlternates(blk: Blocks, top: int, a: int)
    requires Tiled(blk, top) && Coalesced(blk, NULL) && (a in blk || a == top)
    ensures forall b :: b in Walk(blk, top, a) ==> b in blk
    ensures var w := Walk(blk, top, a);
            Count(blk, w, false) <= Count(blk, w, true) + (if a in blk && !blk[a].alloc then 1 else 0)
    decreases top - a
  {
    WalkSum(blk, top, a);
    if a != top {
      assert NextOk(blk, top, a) && Calm(blk, a, NULL);
      FreeAlternates(blk, top, End(blk, a));
      assert Walk(blk, top, a)[1..] == Walk(blk, top, End(blk, a));
    }
  }

  /** No two entries of the walk are equal. */
  lemma {:induction false} WalkDistinct(blk: Blocks, top: int, a: int)
    requires Tiled(blk, top) && (a in blk || a == top)
    ensures Distinct(Walk(blk, top, a))
    decreases top - a
  {
    if a != top {
      assert NextOk(blk, top, a);
      WalkDistinct(blk, top, End(blk, a));
      WalkMeetsAll(blk, top, End(blk, a), a);
    }
  }

  ghost function Those(blk: Blocks, s: seq<int>, alloc: bool): set<int> {
    set a | a in s && a in blk && blk[a].alloc == alloc
  }

  lemma ThoseCons(blk: Blocks, s: seq<int>, alloc: bool)
    requires s != [] && Distinct(s) && forall a :: a in s ==> a in blk
    ensures s[0] in blk && s[0] !in Those(blk, s[1..], alloc)
    ensures Those(blk, s, alloc) == if blk[s[0]].alloc == alloc then Those(blk, s[1..], alloc) + {s[0]} else Those(blk, s[1..], alloc)
  {
    TailDistinct(s);
    assert s == [s[0]] + s[1..];
    var a := s[0];
    assert a in s && a in blk;
  }

  lemma {:induction false} CountIsSize(blk: Blocks, s: seq<int>, alloc: bool)
    requires Distinct(s) && forall a :: a in s ==> a in blk
    ensures Count(blk, s, alloc) == |Those(blk, s, alloc)|
  {
    if s != [] {
      hide Those;
      ThoseCons(blk, s, alloc);
      CountIsSize(blk, s[1..], alloc);
    } else {
      assert Those(blk, s, alloc) == {};
    }
  }

  lemma {:induction false} DistinctSize(s: seq<int>)
    requires Distinct(s)
    ensures |SetOf(s)| == |s|
  {
    if s != [] {
      DistinctSize(s[1..]);
      assert s == [s[0]] + s[1..];
      assert SetOf(s) == SetOf(s[1..]) + {s[0]};
    }
  }

  lemma WalkedByStatus(m: seq<Word>, blk: Blocks, free: seq<int>, w: seq<int>)
    requires ListsFree(blk, free, NULL) && PROLOGUE in blk && blk[PROLOGUE].alloc && NULL !in blk
    requires forall b :: b in w <==> b in blk && b != PROLOGUE
    ensures Those(blk, w, false) == SetOf(free) && Those(blk, w, true) == Payloads(m, blk).Keys
  {
    forall a ensures a in Those(blk, w, false) <==> a in SetOf(free) {}
    forall a ensures a in Those(blk, w, true) <==> a in Payloads(m, blk).Keys {}
  }

  /** The search of find_fit is short: the list has at most one node more than there are live blocks. */
  lemma FreeListIsShort(m: seq<Word>, blk: Blocks, top: int, free: seq<int>)
    requires WellFormed(m, blk, top, free)
    ensures |free| <= |Payloads(m, blk)| + 1
  {
    HeapIsAccountedFor(m, blk, top, free);
    var w := Walk(blk, top, PROLOGUE + 2);
    FreeAlternates(blk, top, PROLOGUE + 2);
    WalkDistinct(blk, top, PROLOGUE + 2);
    CountIsSize(blk, w, false);
    CountIsSize(blk, w, true);
    DistinctSize(free);
    WalkedByStatus(m, blk, free, w);
    hide Tiled, Tagged, Even, Coalesced, Walk, Count, Those, Payloads, ListsFree, Linked;
  }

  /** When nothing is live, the heap is one free block of heapsize - 16 bytes, alone in the list. */
  lemma NothingLiveOneBlock(m: seq<Word>, blk: Blocks, top: int, free: seq<int>)
    requires WellFormed(m, blk, top, free) && Payloads(m, blk) == map[] && PROLOGUE + 2 < top
    ensures blk == map[PROLOGUE := Block(2, true), PROLOGUE + 2 := Block(top - 4, false)] && free == [PROLOGUE + 2]
  {
    hide Tagged, Even;
    assert NextOk(blk, top, PROLOGUE);
    var a := PROLOGUE + 2;
    NobodyLive(m, blk, a);
    assert NextOk(blk, top, a) && Calm(blk, a, NULL);
    if End(blk, a) in blk { NobodyLive(m, blk, End(blk, a)); }
    assert End(blk, a) == top;
    forall b | b in blk ensures b == PROLOGUE || b == a { NoneInside(blk, top, a, b); NoneInside(blk, top, PROLOGUE, b); }
    OnlyNode(free, a);
  }

  lemma NobodyLive(m: seq<Word>, blk: Blocks, a: int)
    requires Payloads(m, blk) == map[] && a in blk && a != PROLOGUE
    ensures !blk[a].alloc
  {
    assert a in Payloads(m, blk) <==> blk[a].alloc;
  }

  lemma OnlyNode(free: seq<int>, a: int)
    requires Distinct(free) && a in free && forall f :: f in free ==> f == a
    ensures free == [a]
  {
    assert |free| > 1 ==> free[0] != free[1];
    forall i | 0 <= i < |free| ensures free[i] == a { assert free[i] in free; }
  }

  // ---- mm_malloc undone by mm_free ------------------------------------------------------------

  /** The block below a free block is allocated, and so is the one above. */
  lemma FreeNeighbours(blk: Blocks, top: int, bp: int)
    requires Tiled(blk, top) && Coalesced(blk, NULL) && bp in blk && !blk[bp].alloc && bp != PROLOGUE
    ensures blk[Prev(blk, top, bp)].alloc
    ensures End(blk, bp) in blk ==> blk[End(blk, bp)].alloc
  {
    assert Calm(blk, bp, NULL);
    assert Calm(blk, Prev(blk, top, bp), NULL);
  }

  /** Freeing what place has just taken gives back the tiling, split or not. */
  lemma FreeUndoesPlace(blk: Blocks, top: int, free: seq<int>, bp: int, k: int)
    requires Tiled(blk, top) && ListsFree(blk, free, NULL) && Coalesced(blk, NULL) && Fits(blk, top, free, bp, k)
    ensures bp in Placed(blk, bp, k) && Tiled(Freed(Placed(blk, bp, k), bp), top) && bp != PROLOGUE
    ensures Merged(Freed(Placed(blk, bp, k), bp), top, bp) == blk
    ensures var list := MergedList(Freed(Placed(blk, bp, k), bp), top, PlacedList(blk, free, bp, k), bp);
            forall f :: f in list <==> f in free
  {
    NodeIsFree(blk, top, free, bp);
    FreeNeighbours(blk, top, bp);
    if blk[bp].n - k >= MINIMUM {
      FreeUndoesSplit(blk, top, free, bp, k);
    } else {
      FreeUndoesWhole(blk, top, free, bp, k);
    }
  }

  lemma FreeUndoesSplit(blk: Blocks, top: int, free: seq<int>, bp: int, k: int)
    requires Tiled(blk, top) && ListsFree(blk, free, NULL) && bp in free && Cuts(blk, bp, k)
    requires !blk[bp].alloc && blk[Prev(blk, top, bp)].alloc
    ensures var g := Split(blk, bp, k, false, false);
            Freed(Split(blk, bp, k, true, false), bp) == g && Tiled(g, top) && Merged(g, top, bp) == blk
    ensures forall f :: f in MergedList(Split(blk, bp, k, false, false), top, [bp + k] + Without(free, bp), bp) <==> f in free
  {
    SplitTiled(blk, top, bp, k, false, false);
    hide NextOk, Apart, ListsFree, Without, Prev;
    var g := Split(blk, bp, k, false, false);
    SplitBackList(blk, free, bp, k, Prev(g, top, bp));
  }

  lemma SplitBackList(blk: Blocks, free: seq<int>, bp: int, k: int, prev: int)
    requires ListsFree(blk, free, NULL) && bp in free && bp in blk && bp + k !in blk
    requires prev in blk && blk[prev].alloc && k > 0
    ensures forall f :: f in [bp] + Without(Without([bp + k] + Without(free, bp), bp + k), prev) <==> f in free
  {
    WithoutProps(free, bp);
    WithoutFront(Without(free, bp), bp + k);
    WithoutProps(Without(free, bp), prev);
  }

  lemma FreeUndoesWhole(blk: Blocks, top: int, free: seq<int>, bp: int, k: int)
    requires Tiled(blk, top) && ListsFree(blk, free, NULL) && bp in free && bp in blk && bp != PROLOGUE
    requires !blk[bp].alloc && blk[Prev(blk, top, bp)].alloc && (End(blk, bp) in blk ==> blk[End(blk, bp)].alloc)
    ensures Freed(blk[bp := Block(blk[bp].n, true)], bp) == blk && Merged(blk, top, bp) == blk
    ensures forall f :: f in MergedList(blk, top, Without(free, bp), bp) <==> f in free
  {
    RunIsRun(blk, top, bp);
    forall a | a in blk ensures !(bp < a < End(blk, bp)) { NoneInside(blk, top, bp, a); }
    WholeBackList(blk, free, bp, End(blk, bp), Prev(blk, top, bp));
    hide Tiled, ListsFree, Without, Prev;
  }

  lemma WholeBackList(blk: Blocks, free: seq<int>, bp: int, next: int, prev: int)
    requires ListsFree(blk, free, NULL) && bp in free && prev in blk && blk[prev].alloc && (next in blk ==> blk[next].alloc)
    ensures forall f :: f in [bp] + Without(Without(Without(free, bp), next), prev) <==> f in free
  {
    WithoutProps(free, bp);
    WithoutProps(Without(free, bp), next);
    WithoutProps(Without(Without(free, bp), next), prev);
  }

  /** Some free block has room for a block of the adjusted size. */
  ghost predicate HasRoom(blk: Blocks, size: int) requires A.NoWrap(size) {
    exists b :: b in blk && !blk[b].alloc && A.AdjustedSize(size) <= 4 * blk[b].n
  }

  lemma RoomIsFound(blk: Blocks, top: int, free: seq<int>, size: int)
    requires Tiled(blk, top) && ListsFree(blk, free, NULL) && A.NoWrap(size) && HasRoom(blk, size)
    ensures (forall f :: f in free ==> f in blk) && FirstFit(blk, free, A.AdjustedSize(size) / 4) != NULL
  {
    hide A.AdjustedSize, FirstFit;
    ListSearchIsComplete(blk, top, free, A.AdjustedSize(size) / 4);
  }

  /** mm_malloc of something that fits, and mm_free of the result: the partition into blocks, the set of free
      blocks, the break and every payload are as before; only the order of the list may differ. */
  method MallocThenFree(mm: A.Allocator, size: int)
    requires mm.Valid() && size > 0 && A.NoWrap(size) && HasRoom(mm.blk, size)
    modifies mm, mm.lib, mm.lib.arena
    ensures mm.Valid() && mm.blk == old(mm.blk) && mm.top == old(mm.top) && mm.Owned() == old(mm.Owned())
    ensures forall f :: f in mm.free <==> f in old(mm.free)
  {
    hide Tiled, Even, Tagged, Linked, ListsFree, Coalesced, Payloads;
    ghost var blk, top, free: seq<int> := mm.blk, mm.top, mm.free;
    assert Tiled(blk, top) && ListsFree(blk, free, NULL) && Coalesced(blk, NULL);
    hide *;
    RoomIsFound(blk, top, free, size);
    var bp := mm.MmMalloc(size);
    FreeUndoesPlace(blk, top, free, bp, A.AdjustedSize(size) / 4);
    mm.MmFree(bp);
  }

  // ---- the two searches -----------------------------------------------------------------------

  /** The explicit list finds a block exactly when some free block of the tiling is large enough. */
  lemma ListSearchIsComplete(blk: Blocks, top: int, free: seq<int>, k: int)
    requires Tiled(blk, top) && ListsFree(blk, free, NULL)
    ensures forall f :: f in free ==> f in blk
    ensures FirstFit(blk, free, k) != NULL <==> exists a :: a in blk && !blk[a].alloc && k <= blk[a].n
  {
    NodesAreBlocks(blk, top, free);
    FirstFitFinds(blk, free, k);
  }
}
