/** What coalesce does to the three views: the run of free blocks around bp becomes one block, and that
    block goes to the front of the list. */
module CoalesceLemmas {
  import opened Sequences
  import opened Shape
  import opened ShapeLemmas

  /** First block of the free run around the free block bp. */
  ghost function RunLo(blk: Blocks, top: int, bp: int): int
    requires Tiled(blk, top) && bp in blk && bp != PROLOGUE
  {
    if blk[Prev(blk, top, bp)].alloc then bp else Prev(blk, top, bp)
  }

  /** Where that run ends. */
  ghost function RunHi(blk: Blocks, bp: int): int
    requires bp in blk
  {
    var next := End(blk, bp);
    if next in blk && !blk[next].alloc then End(blk, next) else next
  }

  /** The tiling that coalesce leaves. */
  ghost function Merged(blk: Blocks, top: int, bp: int): Blocks
    requires Tiled(blk, top) && bp in blk && bp != PROLOGUE
  {
    var lo := RunLo(blk, top, bp);
    var hi := RunHi(blk, bp);
    assert lo <= bp <= hi;
    Fused(blk, lo, hi, false)
  }

  /** The list that coalesce leaves: the merged block in front, the neighbours gone. */
  ghost function MergedList(blk: Blocks, top: int, free: seq<int>, bp: int): seq<int>
    requires Tiled(blk, top) && bp in blk && bp != PROLOGUE
  {
    [RunLo(blk, top, bp)] + Without(Without(free, End(blk, bp)), Prev(blk, top, bp))
  }

  lemma RunIsRun(blk: Blocks, top: int, bp: int)
    requires Tiled(blk, top) && bp in blk && bp != PROLOGUE
    ensures Run(blk, top, RunLo(blk, top, bp), RunHi(blk, bp))
    ensures RunHi(blk, bp) <= top && PROLOGUE + 2 <= RunLo(blk, top, bp)
  {
    assert NextOk(blk, top, bp);
    if End(blk, bp) in blk { assert NextOk(blk, top, End(blk, bp)); }
  }

  /** The only blocks of the run are bp and its free neighbours. */
  lemma RunMembers(blk: Blocks, top: int, bp: int, a: int)
    requires Tiled(blk, top) && bp in blk && bp != PROLOGUE && a in blk
    requires RunLo(blk, top, bp) <= a < RunHi(blk, bp)
    ensures a == bp || (!blk[a].alloc && (a == Prev(blk, top, bp) || a == End(blk, bp)))
  {
  }

  /** The tags of a fused run are written; the words between them may change freely. */
  lemma FuseStep(m: seq<Word>, w: seq<Word>, blk: Blocks, top: int, free: seq<int>, lo: int, hi: int, alloc: bool)
    requires Tiled(blk, top) && Even(blk, top) && Tagged(m, blk, top) && Linked(m, free) && Run(blk, top, lo, hi) && hi <= top
    requires |m| < 0x2000_0000
    requires forall f :: f in free ==> f in blk && f != PROLOGUE && !(lo <= f < hi)
    requires |w| == |m| && forall i :: 0 <= i < |m| && !(lo - 1 <= i < hi - 1) ==> w[i] == m[i]
    requires w[lo - 1] == Tag(Block(hi - lo, alloc)) == w[hi - 2]
    ensures var g := Fused(blk, lo, hi, alloc); Tiled(g, top) && Even(g, top) && Tagged(w, g, top) && Linked(w, free)
  {
    FuseEven(blk, top, lo, hi, alloc);
    OutsideRun(blk, top, lo, hi, PROLOGUE);
    assert End(blk, lo) <= hi;
    FuseTagged(m, w, blk, top, lo, hi, alloc);
    forall f | f in free ensures w[f] == m[f] && w[f + 1] == m[f + 1] {
      if f < lo { assert End(blk, f) <= lo; } else { assert hi <= f; }
    }
    LinkedFrame(m, w, free);
  }

  lemma OutsideRun(blk: Blocks, top: int, lo: int, hi: int, a: int)
    requires Tiled(blk, top) && Run(blk, top, lo, hi) && a in blk && !(lo <= a < hi)
    ensures End(blk, a) <= lo || hi <= a
  {
  }

  lemma FusePayloadOf(m: seq<Word>, w: seq<Word>, blk: Blocks, top: int, lo: int, hi: int, a: int)
    requires Tiled(blk, top) && top <= |m| == |w| && Run(blk, top, lo, hi)
    requires forall i :: 0 <= i < |m| && !(lo - 1 <= i < hi - 1) ==> w[i] == m[i]
    requires forall b :: b in blk && lo <= b < hi ==> !blk[b].alloc
    ensures var p, q := Payloads(w, Fused(blk, lo, hi, false)), Payloads(m, blk);
            (a in p <==> a in q) && (a in p && a in q ==> p[a] == q[a])
  {
    if a in blk && blk[a].alloc {
      OutsideRun(blk, top, lo, hi, a);
      PayloadOff(m, w, blk, top, lo, hi, a);
    }
    assert lo in blk && !blk[lo].alloc;
    hide Tiled, Run, Payload;
  }

  lemma PayloadOff(m: seq<Word>, w: seq<Word>, blk: Blocks, top: int, lo: int, hi: int, a: int)
    requires Tiled(blk, top) && a in blk && top <= |m| == |w| && (End(blk, a) <= lo || hi <= a)
    requires forall i :: 0 <= i < |m| && !(lo - 1 <= i < hi - 1) ==> w[i] == m[i]
    ensures Payload(w, a, blk[a]) == Payload(m, a, blk[a])
  {
  }

  /** Tag writes on a run of free blocks change no payload. */
  lemma FuseKeepsPayloads(m: seq<Word>, w: seq<Word>, blk: Blocks, top: int, lo: int, hi: int)
    requires Tiled(blk, top) && top <= |m| == |w| && Run(blk, top, lo, hi)
    requires forall i :: 0 <= i < |m| && !(lo - 1 <= i < hi - 1) ==> w[i] == m[i]
    requires forall a :: a in blk && lo <= a < hi ==> !blk[a].alloc
    ensures Payloads(w, Fused(blk, lo, hi, false)) == Payloads(m, blk)
  {
    var p, q := Payloads(w, Fused(blk, lo, hi, false)), Payloads(m, blk);
    hide Payloads, Fused, Tiled, Run;
    forall a ensures (a in p <==> a in q) && (a in p && a in q ==> p[a] == q[a]) { FusePayloadOf(m, w, blk, top, lo, hi, a); }
  }

  /** The blocks from lo to hi are free and none of them is listed. */
  ghost predicate Unlisted(blk: Blocks, free: seq<int>, lo: int, hi: int) {
    && (forall f :: f in free ==> f in blk && f != PROLOGUE && !blk[f].alloc && !(lo <= f < hi))
    && (forall a :: a in blk && lo <= a < hi ==> !blk[a].alloc)
  }

  /** A run of free blocks, none of them listed, becomes one free block. */
  lemma TagRun(m: seq<Word>, w: seq<Word>, blk: Blocks, top: int, free: seq<int>, lo: int, hi: int)
    requires Tiled(blk, top) && Even(blk, top) && Tagged(m, blk, top) && Linked(m, free) && Run(blk, top, lo, hi) && hi <= top
    requires |m| < 0x2000_0000
    requires Unlisted(blk, free, lo, hi)
    requires w == m[lo - 1 := Tag(Block(hi - lo, false))][hi - 2 := Tag(Block(hi - lo, false))]
    ensures var g := Fused(blk, lo, hi, false);
            Tiled(g, top) && Even(g, top) && Tagged(w, g, top) && Linked(w, free) && Payloads(w, g) == Payloads(m, blk)
  {
    FuseStep(m, w, blk, top, free, lo, hi, false);
    FuseKeepsPayloads(m, w, blk, top, lo, hi);
  }

  /** Putting a listed-nowhere free block at the front of the list. */
  lemma PushStep(m: seq<Word>, w: seq<Word>, blk: Blocks, top: int, free: seq<int>, x: Word)
    requires Tiled(blk, top) && Even(blk, top) && Tagged(m, blk, top) && Linked(m, free)
    requires |m| < 0x2000_0000 && x in blk && x != PROLOGUE && !blk[x].alloc && x !in free
    requires forall f :: f in free ==> f in blk && f != PROLOGUE && !blk[f].alloc
    requires 0 < x < |m| - 1 && w == Pushed(m, free, x)
    ensures Tagged(w, blk, top) && Linked(w, [x] + free) && Payloads(w, blk) == Payloads(m, blk)
  {
    PushLinked(m, free, x);
    LinksKeepTags(m, w, blk, top, SetOf(free) + {x});
    LinksKeepPayloads(m, w, blk, top, SetOf(free) + {x});
  }

  /** Taking a node out of the list. */
  lemma UnlinkStep(m: seq<Word>, w: seq<Word>, blk: Blocks, top: int, free: seq<int>, k: nat)
    requires Tiled(blk, top) && Tagged(m, blk, top) && Linked(m, free) && k < |free|
    requires forall f :: f in free ==> f in blk && f != PROLOGUE && !blk[f].alloc
    requires w == Unlinked(m, free, k)
    ensures Tagged(w, blk, top) && Linked(w, Without(free, free[k])) && Payloads(w, blk) == Payloads(m, blk)
  {
    UnlinkLinked(m, free, k);
    UnlinkAgrees(m, free, k);
    WithoutAt(free, k);
    LinksKeepTags(m, w, blk, top, SetOf(free));
    LinksKeepPayloads(m, w, blk, top, SetOf(free));
  }

  /** After the merge the list names every free block and no two free blocks touch. */
  lemma MergeRestores(blk: Blocks, top: int, free: seq<int>, bp: int)
    requires Tiled(blk, top) && bp in blk && bp != PROLOGUE && !blk[bp].alloc
    requires ListsFree(blk, free, bp) && Coalesced(blk, bp)
    ensures ListsFree(Merged(blk, top, bp), MergedList(blk, top, free, bp), NULL)
    ensures Coalesced(Merged(blk, top, bp), NULL)
  {
    MergeLists(blk, top, free, bp);
    RunIsRun(blk, top, bp);
    var g := Merged(blk, top, bp);
    forall a | a in g ensures Calm(g, a, NULL) { MergeCalm(blk, top, bp, a); }
  }

  lemma MergeLists(blk: Blocks, top: int, free: seq<int>, bp: int)
    requires Tiled(blk, top) && bp in blk && bp != PROLOGUE && !blk[bp].alloc && ListsFree(blk, free, bp)
    ensures ListsFree(Merged(blk, top, bp), MergedList(blk, top, free, bp), NULL)
  {
    RunIsRun(blk, top, bp);
    var next, prev := End(blk, bp), Prev(blk, top, bp);
    WithoutProps(free, next);
    WithoutProps(Without(free, next), prev);
    var g, r := Merged(blk, top, bp), MergedList(blk, top, free, bp);
    var rest := Without(Without(free, next), prev);
    assert forall f :: f in r <==> f == RunLo(blk, top, bp) || f in rest;
    forall f | f in rest ensures f in g && !g[f].alloc {
      if RunLo(blk, top, bp) <= f < RunHi(blk, bp) { RunMembers(blk, top, bp, f); }
    }
    forall a | a in g && !g[a].alloc ensures a in r {
      if a == prev || a == next || a == bp {
        assert next in blk && !blk[next].alloc ==> bp < next < RunHi(blk, bp);
      }
    }
  }

  lemma MergeCalm(blk: Blocks, top: int, bp: int, a: int)
    requires Tiled(blk, top) && bp in blk && bp != PROLOGUE && !blk[bp].alloc && Coalesced(blk, bp)
    requires a in Merged(blk, top, bp)
    ensures Calm(Merged(blk, top, bp), a, NULL)
  {
    RunIsRun(blk, top, bp);
    var g := Merged(blk, top, bp);
    var lo, hi, prev := RunLo(blk, top, bp), RunHi(blk, bp), Prev(blk, top, bp);
    if a == lo {
      if hi in blk && hi != End(blk, bp) { assert Calm(blk, End(blk, bp), bp); }
    } else {
      assert Calm(blk, a, bp);
      if End(g, a) == lo {
        if lo == bp { PrevUnique(blk, top, a, prev); }
      } else if a < lo {
        assert End(blk, a) <= lo;
      }
    }
  }

  // ---- what coalesce reads and leaves ---------------------------------------------------------

  /** The tags around bp, as coalesce reads them. */
  lemma NeighbourTags(m: seq<Word>, blk: Blocks, top: int, bp: int)
    requires Tiled(blk, top) && Even(blk, top) && Tagged(m, blk, top) && |m| < 0x2000_0000
    requires bp in blk && bp != PROLOGUE
    ensures var prev, next := Prev(blk, top, bp), End(blk, bp);
      && PROLOGUE <= prev <= bp - 2 && bp + 4 <= next <= top <= |m| < 0x2000_0000
      && prev in blk && End(blk, prev) == bp
      && m[bp - 1] == m[next - 2] == Tag(blk[bp]) && GetSize(m[bp - 1]) == 4 * blk[bp].n
      && m[prev - 1] == m[bp - 2]
      && GetSize(m[bp - 2]) == 4 * blk[prev].n && GetAlloc(m[bp - 2]) == (if blk[prev].alloc then 1 else 0)
      && (if next in blk && !blk[next].alloc then
            && next + 4 <= End(blk, next) <= top
            && m[next - 1] == m[End(blk, next) - 2]
            && GetSize(m[next - 1]) == 4 * blk[next].n && GetAlloc(m[next - 1]) == 0
          else GetAlloc(m[next - 1]) == 1)
  {
    ReadTags(m, blk, top, bp);
    ReadTags(m, blk, top, Prev(blk, top, bp));
    ReadNext(m, blk, top, bp);
    if End(blk, bp) in blk { ReadTags(m, blk, top, End(blk, bp)); }
  }

  lemma PrevTag(m: seq<Word>, blk: Blocks, top: int, bp: int)
    requires Tiled(blk, top) && Even(blk, top) && Tagged(m, blk, top) && |m| < 0x2000_0000
    requires bp in blk && bp != PROLOGUE
    ensures PROLOGUE + 2 <= bp <= |m| && GetSize(m[bp - 2]) == 4 * (bp - Prev(blk, top, bp))
  {
  }

  lemma NeighbourLists(blk: Blocks, top: int, free: seq<int>, bp: int)
    requires Tiled(blk, top) && bp in blk && bp != PROLOGUE && !blk[bp].alloc && ListsFree(blk, free, bp)
    ensures var prev, next := Prev(blk, top, bp), End(blk, bp);
      && (next in free <==> next in blk && !blk[next].alloc)
      && (prev in free <==> !blk[prev].alloc)
      && (prev in Without(free, next) <==> prev in free)
  {
    WithoutProps(free, End(blk, bp));
  }

  /** Unlinking a node of a list of free blocks. */
  lemma UnlinkFree(m: seq<Word>, w: seq<Word>, blk: Blocks, top: int, all: seq<int>, free: seq<int>, x: int, f: int)
    requires Tiled(blk, top) && Tagged(m, blk, top) && Linked(m, free) && ListsFree(blk, all, x)
    requires f in free && (forall y :: y in free ==> y in all)
    requires w == Unlinked(m, free, IndexOf(free, f))
    ensures |w| == |m| && Tagged(w, blk, top) && Linked(w, Without(free, f)) && Payloads(w, blk) == Payloads(m, blk)
  {
    UnlinkStep(m, w, blk, top, free, IndexOf(free, f));
  }

  /** The blocks of the run are free, and unlisted once the neighbours have left the list. */
  lemma RunUnlisted(blk: Blocks, top: int, free: seq<int>, bp: int)
    requires Tiled(blk, top) && bp in blk && bp != PROLOGUE && !blk[bp].alloc && ListsFree(blk, free, bp)
    ensures Unlisted(blk, Without(Without(free, End(blk, bp)), Prev(blk, top, bp)), RunLo(blk, top, bp), RunHi(blk, bp))
  {
    WithoutProps(free, End(blk, bp));
    WithoutProps(Without(free, End(blk, bp)), Prev(blk, top, bp));
    forall a | a in blk && RunLo(blk, top, bp) <= a < RunHi(blk, bp)
      ensures a == bp || (!blk[a].alloc && (a == Prev(blk, top, bp) || a == End(blk, bp)))
    {
      RunMembers(blk, top, bp, a);
    }
  }

  /** The list coalesce has before it inserts the merged block. */
  ghost function Others(blk: Blocks, top: int, free: seq<int>, bp: int): seq<int>
    requires Tiled(blk, top) && bp in blk && bp != PROLOGUE
  {
    Without(Without(free, End(blk, bp)), Prev(blk, top, bp))
  }

  ghost function MergedTag(blk: Blocks, top: int, bp: int): Word
    requires Tiled(blk, top) && bp in blk && bp != PROLOGUE && top < 0x2000_0000
  {
    RunIsRun(blk, top, bp);
    Tag(Block(RunHi(blk, bp) - RunLo(blk, top, bp), false))
  }

  /** w is what the tag writes of coalesce leave of m: the tiling is Merged, and only the list is still
      short of the merged block. */
  ghost predicate Joined(m: seq<Word>, w: seq<Word>, blk: Blocks, top: int, free: seq<int>, bp: int)
    requires Tiled(blk, top) && bp in blk && bp != PROLOGUE
  {
    var g := Merged(blk, top, bp);
    && |w| == |m| && Tiled(g, top) && Even(g, top) && Tagged(w, g, top) && Linked(w, Others(blk, top, free, bp))
    && Payloads(w, g) == Payloads(m, blk)
  }

  lemma CoalesceTags(m0: seq<Word>, m: seq<Word>, w: seq<Word>, blk: Blocks, top: int, free: seq<int>, bp: int)
    requires |m0| == |m| < 0x2000_0000 && Tiled(blk, top) && Even(blk, top) && bp in blk && bp != PROLOGUE && !blk[bp].alloc
    requires ListsFree(blk, free, bp)
    requires Tagged(m, blk, top) && Linked(m, Others(blk, top, free, bp)) && Payloads(m0, blk) == Payloads(m, blk)
    requires RunHi(blk, bp) <= top && 1 <= RunLo(blk, top, bp) <= bp < RunHi(blk, bp) - 2
    requires w == m[RunLo(blk, top, bp) - 1 := MergedTag(blk, top, bp)][RunHi(blk, bp) - 2 := MergedTag(blk, top, bp)]
    ensures Joined(m0, w, blk, top, free, bp)
  {
    RunIsRun(blk, top, bp);
    RunUnlisted(blk, top, free, bp);
    TagRun(m, w, blk, top, Others(blk, top, free, bp), RunLo(blk, top, bp), RunHi(blk, bp));
  }

  lemma SizeOfMerged(blk: Blocks, top: int, bp: int)
    requires Tiled(blk, top) && Even(blk, top) && bp in blk && bp != PROLOGUE && top < 0x2000_0000
    ensures GetSize(MergedTag(blk, top, bp)) == MergedTag(blk, top, bp) == 4 * (RunHi(blk, bp) - RunLo(blk, top, bp))
  {
    RunIsRun(blk, top, bp);
    assert RunLo(blk, top, bp) % 2 == 0 && RunHi(blk, bp) % 2 == 0;
    hide Tiled, Even, RunLo, RunHi;
    TagFields(Block(RunHi(blk, bp) - RunLo(blk, top, bp), false));
    hide GetSize;
  }

  /** The merged block is listed. */
  lemma CoalesceEnds(m: seq<Word>, w: seq<Word>, x: seq<Word>, blk: Blocks, top: int, free: seq<int>, bp: int)
    requires |w| < 0x2000_0000 && Tiled(blk, top) && bp in blk && bp != PROLOGUE && !blk[bp].alloc
    requires ListsFree(blk, free, bp) && Coalesced(blk, bp)
    requires Joined(m, w, blk, top, free, bp)
    requires 0 < RunLo(blk, top, bp) < |w| - 1 && x == Pushed(w, Others(blk, top, free, bp), RunLo(blk, top, bp))
    ensures WellFormed(x, Merged(blk, top, bp), top, MergedList(blk, top, free, bp))
    ensures Payloads(x, Merged(blk, top, bp)) == Payloads(m, blk)
  {
    RunIsRun(blk, top, bp);
    RunUnlisted(blk, top, free, bp);
    UnlistedStays(blk, Others(blk, top, free, bp), RunLo(blk, top, bp), RunHi(blk, bp));
    hide Unlisted, Coalesced, ListsFree;
    PushStep(w, x, Merged(blk, top, bp), top, Others(blk, top, free, bp), RunLo(blk, top, bp));
    MergeRestores(blk, top, free, bp);
  }

  lemma UnlistedStays(blk: Blocks, free: seq<int>, lo: int, hi: int)
    requires Unlisted(blk, free, lo, hi) && lo < hi
    ensures lo !in free && forall f :: f in free ==> f in Fused(blk, lo, hi, false) && f != PROLOGUE && !Fused(blk, lo, hi, false)[f].alloc
  {
  }
}
