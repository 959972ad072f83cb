/** mm-firstfit.c: the search that walks every block in address order, to compare with the free list. */
module ImplicitList {
  import opened Shape
  import opened ShapeLemmas
  import opened PlaceLemmas
  import opened ReallocLemmas
  import opened HeapProperties
  import A = Allocator

  /** A block that find_fit may return. */
  predicate Suits(blk: Blocks, a: int, asize: int) { a in blk && !blk[a].alloc && asize <= 4 * blk[a].n }

  lemma NextStep(m: seq<Word>, blk: Blocks, top: int, a: int)
    requires Tiled(blk, top) && Even(blk, top) && Tagged(m, blk, top) && |m| < 0x2000_0000 && a in blk
    ensures 1 <= End(blk, a) <= top <= |m| && (End(blk, a) in blk || End(blk, a) == top)
    ensures forall b :: b in blk && b < End(blk, a) ==> b <= a
  {
    assert NextOk(blk, top, a);
    if End(blk, a) in blk { ReadTags(m, blk, top, End(blk, a)); }
    forall b | b in blk && b < End(blk, a) ensures b <= a { NoneInside(blk, top, a, b); }
  }

  /** The header at a is 0 only at the epilogue. */
  lemma HeaderEnds(m: seq<Word>, blk: Blocks, top: int, a: int)
    requires Tiled(blk, top) && Even(blk, top) && Tagged(m, blk, top) && |m| < 0x2000_0000 && (a in blk || a == top)
    ensures 1 <= a <= top <= |m| && (GetSize(m[a - 1]) > 0 <==> a in blk)
    ensures a in blk ==> GetSize(m[a - 1]) == 4 * blk[a].n && GetAlloc(m[a - 1]) == (if blk[a].alloc then 1 else 0)
  {
    if a in blk {
      ReadTags(m, blk, top, a);
    }
  }

  /** find_fit of mm-firstfit.c: the lowest free block that is large enough, and so it succeeds exactly
      when the search of the explicit list does. */
  method FindFitImplicit(mm: A.Allocator, asize: int) returns (p: int)
    requires mm.Valid() && asize % 4 == 0
    ensures p == NULL <==> forall b :: b in mm.blk ==> !Suits(mm.blk, b, asize)
    ensures p != NULL ==> Suits(mm.blk, p, asize) && forall b :: Suits(mm.blk, b, asize) ==> p <= b
    ensures (forall f :: f in mm.free ==> f in mm.blk) && (p == NULL <==> FirstFit(mm.blk, mm.free, asize / 4) == NULL)
  {
    hide Tiled, Even, Tagged, Linked, ListsFree, Coalesced, GetSize, GetAlloc, FirstFit;
    ghost var m: seq<Word>, blk, top := mm.lib.arena[..], mm.blk, mm.top;
    SearchesAgree(m, blk, top, mm.free, asize);
    NoneAtNull(blk, top);
    var bp := mm.heapListp;
    HeaderEnds(m, blk, top, bp);
    while GetSize(mm.lib.arena[bp - 1]) > 0
      invariant bp in blk || bp == top
      invariant 1 <= bp <= top <= |m| && (GetSize(m[bp - 1]) > 0 <==> bp in blk)
      invariant forall b :: b in blk && b < bp ==> !Suits(blk, b, asize)
      decreases top - bp
    {
      HeaderEnds(m, blk, top, bp);
      NextStep(m, blk, top, bp);
      if GetAlloc(mm.lib.arena[bp - 1]) == 0 && asize <= GetSize(mm.lib.arena[bp - 1]) {
        return bp;
      }
      ReadTags(m, blk, top, bp);
      bp := mm.NextBlkp(bp);
      HeaderEnds(m, blk, top, bp);
    }
    AllBelow(blk, top);
    return NULL;
  }

  lemma NoneAtNull(blk: Blocks, top: int)
    requires Tiled(blk, top)
    ensures PROLOGUE in blk && forall b :: b in blk ==> PROLOGUE <= b
  {
  }

  lemma AllBelow(blk: Blocks, top: int)
    requires Tiled(blk, top)
    ensures forall b :: b in blk ==> b < top
  {
  }

  lemma SearchesAgree(m: seq<Word>, blk: Blocks, top: int, free: seq<int>, asize: int)
    requires WellFormed(m, blk, top, free) && asize % 4 == 0
    ensures forall f :: f in free ==> f in blk
    ensures FirstFit(blk, free, asize / 4) == NULL <==> forall b :: b in blk ==> !Suits(blk, b, asize)
  {
    ListSearchIsComplete(blk, top, free, asize / 4);
  }
}
