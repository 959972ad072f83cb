/** What freeing, placing and growing do to the three views. */
module PlaceLemmas {
  import opened Sequences
  import opened Shape
  import opened ShapeLemmas
  import opened CoalesceLemmas

  // ---- mm_free --------------------------------------------------------------------------------

  /** Block bp of the tiling, marked free. */
  ghost function Freed(blk: Blocks, bp: int): Blocks requires bp in blk {
    blk[bp := Block(blk[bp].n, false)]
  }

  ghost predicate Live(blk: Blocks, bp: int) {
    bp in blk && bp != PROLOGUE && blk[bp].alloc
  }

  lemma FreedIsFused(blk: Blocks, top: int, bp: int)
    requires Tiled(blk, top) && Live(blk, bp)
    ensures Fused(blk, bp, End(blk, bp), false) == Freed(blk, bp)
    ensures Run(blk, top, bp, End(blk, bp)) && End(blk, bp) <= top
  {
    assert NextOk(blk, top, bp);
    forall a | a in blk ensures !(bp < a < End(blk, bp)) { NoneInside(blk, top, bp, a); }
  }

  lemma FreedCalm(blk: Blocks, top: int, free: seq<int>, bp: int)
    requires Tiled(blk, top) && Live(blk, bp) && ListsFree(blk, free, NULL) && Coalesced(blk, NULL)
    ensures ListsFree(Freed(blk, bp), free, bp) && Coalesced(Freed(blk, bp), bp)
  {
    var g := Freed(blk, bp);
    forall a | a in g ensures Calm(g, a, bp) { assert Calm(blk, a, NULL); }
  }

  /** mm_free has cleared both tags: only the list is short of bp. */
  lemma FreeStep(m: seq<Word>, w: seq<Word>, blk: Blocks, top: int, free: seq<int>, bp: int)
    requires WellFormed(m, blk, top, free) && Live(blk, bp)
    requires 1 <= bp && 2 <= End(blk, bp) <= |m|
    requires w == m[bp - 1 := 4 * blk[bp].n][End(blk, bp) - 2 := 4 * blk[bp].n]
    ensures WellFormedBut(w, Freed(blk, bp), top, free, bp)
    ensures Payloads(w, Freed(blk, bp)) == Payloads(m, blk) - {bp}
  {
    hide Tiled, Tagged, Even, Linked, ListsFree, Coalesced, Fused, Payload;
    FreedIsFused(blk, top, bp);
    FreedCalm(blk, top, free, bp);
    LiveUnlisted(blk, top, free, bp);
    FuseStep(m, w, blk, top, free, bp, End(blk, bp), false);
    OthersKeep(m, w, blk, top, bp);
  }

  lemma LiveUnlisted(blk: Blocks, top: int, free: seq<int>, bp: int)
    requires Tiled(blk, top) && Live(blk, bp) && ListsFree(blk, free, NULL)
    ensures forall f :: f in free ==> f in blk && f != PROLOGUE && !(bp <= f < End(blk, bp))
  {
  }

  /** Writes inside block bp leave the other payloads alone. */
  lemma OthersKeep(m: seq<Word>, w: seq<Word>, blk: Blocks, top: int, bp: int)
    requires Tiled(blk, top) && top <= |m| == |w| && bp in blk
    requires forall i :: 0 <= i < |m| && !(bp - 1 <= i < End(blk, bp) - 1) ==> w[i] == m[i]
    ensures forall a :: a in blk && a != bp && a != PROLOGUE ==> Payload(w, a, blk[a]) == Payload(m, a, blk[a])
  {
  }

  // ---- place ----------------------------------------------------------------------------------

  /** place: the first k words are allocated, the rest stays free if it can hold a block. */
  ghost function Placed(blk: Blocks, bp: int, k: int): Blocks
    requires bp in blk && 0 <= k <= blk[bp].n
  {
    if blk[bp].n - k >= MINIMUM then Split(blk, bp, k, true, false) else blk[bp := Block(blk[bp].n, true)]
  }

  ghost function PlacedList(blk: Blocks, free: seq<int>, bp: int, k: int): seq<int>
    requires bp in blk
  {
    if blk[bp].n - k >= MINIMUM then [bp + k] + Without(free, bp) else Without(free, bp)
  }

  ghost predicate Fits(blk: Blocks, top: int, free: seq<int>, bp: int, k: int) {
    bp in free && bp in blk && MINIMUM <= k <= blk[bp].n && k % 2 == 0
  }

  /** Of the free words from bp to hi, block bp has asize bytes, and the rest is a free block that heads the list;
      if less than 16 bytes would be left, it has them all. */
  ghost predicate CutTo(blk: Blocks, free: seq<int>, bp: int, asize: int, hi: int) {
    && bp in blk && blk[bp].alloc && asize <= 4 * blk[bp].n < asize + 16
    && if 4 * (hi - bp) < asize + 16 then End(blk, bp) == hi
       else
         && 4 * blk[bp].n == asize && End(blk, bp) in blk && !blk[End(blk, bp)].alloc && End(blk, End(blk, bp)) == hi
         && free != [] && free[0] == End(blk, bp)
  }

  /** Every block of blk but bp is still there. */
  ghost predicate OthersStay(blk: Blocks, g: Blocks, bp: int) {
    forall a :: a in blk && a != bp ==> a in g && g[a] == blk[a]
  }

  lemma PlacedIsCut(blk: Blocks, top: int, free: seq<int>, bp: int, asize: int)
    requires Tiled(blk, top) && asize == 4 * (asize / 4) && Fits(blk, top, free, bp, asize / 4) && !blk[bp].alloc
    ensures CutTo(Placed(blk, bp, asize / 4), PlacedList(blk, free, bp, asize / 4), bp, asize, End(blk, bp))
    ensures OthersStay(blk, Placed(blk, bp, asize / 4), bp)
  {
    if blk[bp].n >= asize / 4 + MINIMUM { SplitTiled(blk, top, bp, asize / 4, true, false); }
    hide Tiled, Without;
  }

  lemma NodeIsFree(blk: Blocks, top: int, free: seq<int>, f: int)
    requires Tiled(blk, top) && ListsFree(blk, free, NULL) && f in free
    ensures f in blk && !blk[f].alloc && PROLOGUE + 2 <= f && MINIMUM <= blk[f].n
  {
  }

  lemma NodesAreBlocks(blk: Blocks, top: int, free: seq<int>)
    requires Tiled(blk, top) && ListsFree(blk, free, NULL)
    ensures forall f :: f in free ==> f in blk && f != NULL
  {
  }

  /** The tags that place writes on block bp touch no link word. */
  lemma PlaceKeepsList(m: seq<Word>, w: seq<Word>, blk: Blocks, top: int, free: seq<int>, bp: int, e: int, t: Word)
    requires Tiled(blk, top) && Linked(m, free) && ListsFree(blk, free, NULL) && bp in free
    requires 1 <= bp && bp + 4 <= e <= End(blk, bp) <= top <= |m| && w == m[bp - 1 := t][e - 2 := t]
    ensures Linked(w, free) && forall f :: f in free ==> w[f] == m[f] && w[f + 1] == m[f + 1]
    ensures bp - 1 !in SetOf(free) && bp - 2 !in SetOf(free) && e - 2 !in SetOf(free) && e - 3 !in SetOf(free)
  {
    forall f | f in free ensures f + 2 <= bp - 1 || f == bp || End(blk, bp) <= f {
      NoneInside(blk, top, bp, f);
      NoneInside(blk, top, f, bp);
    }
    LinkedFrame(m, w, free);
  }

  /** place tags block bp before it unlinks it; outside the tags, that is as if it had only unlinked it. */
  lemma PlaceUnlinks(m: seq<Word>, w: seq<Word>, blk: Blocks, top: int, free: seq<int>, bp: int, e: int, t: Word)
    requires Tiled(blk, top) && Linked(m, free) && ListsFree(blk, free, NULL) && bp in free
    requires 1 <= bp && bp + 4 <= e <= End(blk, bp) <= top <= |m| && w == m[bp - 1 := t][e - 2 := t]
    ensures Linked(w, free)
    ensures var k := IndexOf(free, bp); var u, v := Unlinked(m, free, k), Unlinked(w, free, k);
            |v| == |u| == |m|
            && (forall i :: 0 <= i < |m| && i != bp - 1 && i != e - 2 ==> v[i] == u[i])
            && v[bp - 1] == t == v[e - 2]
  {
    PlaceKeepsList(m, w, blk, top, free, bp, e, t);
    var k := IndexOf(free, bp);
    UnlinkAgrees(w, free, k);
  }

  lemma PlaceRest(m: seq<Word>, u: seq<Word>, w: seq<Word>, blk: Blocks, top: int, free: seq<int>, bp: int, e: int)
    requires Tiled(blk, top) && ListsFree(blk, free, NULL) && bp in free && |u| == |w| == |m|
    requires 1 <= bp && bp + 4 <= e <= End(blk, bp) <= top <= |m|
    requires Linked(u, Without(free, bp))
    requires forall i :: 0 <= i < |m| && !(bp - 1 <= i < End(blk, bp) - 1) ==> w[i] == u[i]
    ensures Linked(w, Without(free, bp))
  {
    WithoutProps(free, bp);
    forall f | f in Without(free, bp) ensures f + 2 <= bp - 1 || End(blk, bp) <= f {
      NoneInside(blk, top, bp, f);
      NoneInside(blk, top, f, bp);
    }
    LinkedFrame(u, w, Without(free, bp));
  }

  lemma TakenLists(blk: Blocks, top: int, free: seq<int>, bp: int)
    requires Tiled(blk, top) && ListsFree(blk, free, NULL) && Coalesced(blk, NULL) && bp in free
    ensures var g := blk[bp := Block(blk[bp].n, true)];
            ListsFree(g, Without(free, bp), NULL) && Coalesced(g, NULL)
  {
    WithoutProps(free, bp);
    assert NULL !in blk;
    var g := blk[bp := Block(blk[bp].n, true)];
    forall a | a in g ensures Calm(g, a, NULL) { TakenCalm(blk, bp, a); }
    hide Tiled, Calm, Without;
  }

  lemma TakenCalm(blk: Blocks, bp: int, a: int)
    requires Coalesced(blk, NULL) && NULL !in blk && a in blk && bp in blk
    ensures Calm(blk[bp := Block(blk[bp].n, true)], a, NULL)
  {
    assert Calm(blk, a, NULL);
  }

  lemma TakenIsFused(blk: Blocks, top: int, bp: int)
    requires Tiled(blk, top) && bp in blk && bp != PROLOGUE
    ensures Fused(blk, bp, End(blk, bp), true) == blk[bp := Block(blk[bp].n, true)]
    ensures Run(blk, top, bp, End(blk, bp)) && End(blk, bp) <= top
  {
    assert NextOk(blk, top, bp);
    forall a | a in blk ensures !(bp < a < End(blk, bp)) { NoneInside(blk, top, bp, a); }
  }

  lemma TakenPayloads(m: seq<Word>, w: seq<Word>, blk: Blocks, g: Blocks, bp: int)
    requires bp in blk && !blk[bp].alloc
    requires forall a :: a in blk && a != bp && a != PROLOGUE ==> Payload(w, a, blk[a]) == Payload(m, a, blk[a])
    requires forall a :: a in blk && blk[a].alloc ==> a in g && g[a] == blk[a]
    requires forall a :: a in g && g[a].alloc && a != bp ==> a in blk && blk[a].alloc
    ensures Payloads(w, g) - {bp} == Payloads(m, blk)
  {
  }

  /** place, when what remains is too small to split off. */
  lemma PlaceWhole(m: seq<Word>, w: seq<Word>, blk: Blocks, top: int, free: seq<int>, bp: int)
    requires WellFormed(m, blk, top, free) && bp in free
    requires 1 <= bp && bp + 4 <= End(blk, bp) <= top <= |m|
    requires var t: Word := Tag(Block(blk[bp].n, true)); var m1: seq<Word> := m[bp - 1 := t][End(blk, bp) - 2 := t];
             Linked(m1, free) && w == Unlinked(m1, free, IndexOf(free, bp))
    ensures WellFormed(w, blk[bp := Block(blk[bp].n, true)], top, Without(free, bp))
    ensures Payloads(w, blk[bp := Block(blk[bp].n, true)]) - {bp} == Payloads(m, blk)
  {
    hide Tagged, Coalesced, Fused, Payload, Payloads, Unlinked, Without, LinkAt;
    var t: Word := Tag(Block(blk[bp].n, true));
    var m1: seq<Word> := m[bp - 1 := t][End(blk, bp) - 2 := t];
    var k := IndexOf(free, bp);
    var u := Unlinked(m, free, k);
    PlaceUnlinks(m, m1, blk, top, free, bp, End(blk, bp), t);
    UnlinkStep(m, u, blk, top, free, k);
    TakenIsFused(blk, top, bp);
    FuseTagged(u, w, blk, top, bp, End(blk, bp), true);
    FuseEven(blk, top, bp, End(blk, bp), true);
    PlaceRest(m, u, w, blk, top, free, bp, End(blk, bp));
    TakenLists(blk, top, free, bp);
    OthersKeep(u, w, blk, top, bp);
    TakenPayloads(u, w, blk, blk[bp := Block(blk[bp].n, true)], bp);
  }

  lemma SplitLists(blk: Blocks, top: int, free: seq<int>, bp: int, k: int)
    requires Tiled(blk, top) && ListsFree(blk, free, NULL) && Coalesced(blk, NULL) && bp in free && Cuts(blk, bp, k)
    ensures var g := Split(blk, bp, k, true, false);
            ListsFree(g, Without(free, bp), bp + k) && Coalesced(g, bp + k)
  {
    WithoutProps(free, bp);
    SplitTiled(blk, top, bp, k, true, false);
    var g := Split(blk, bp, k, true, false);
    assert NULL !in blk;
    hide Without;
    forall a | a in g ensures Calm(g, a, bp + k) { SplitCalm(blk, top, free, bp, k, a); }
    hide Tiled, Calm;
  }

  lemma SplitCalm(blk: Blocks, top: int, free: seq<int>, bp: int, k: int, a: int)
    requires Tiled(blk, top) && Coalesced(blk, NULL) && NULL !in blk && Cuts(blk, bp, k) && bp + k !in blk
    requires a in Split(blk, bp, k, true, false)
    ensures Calm(Split(blk, bp, k, true, false), a, bp + k)
  {
    if a != bp + k { assert Calm(blk, a, NULL); }
  }

  lemma SplitEven(blk: Blocks, top: int, bp: int, k: int)
    requires Even(blk, top) && Cuts(blk, bp, k) && k % 2 == 0
    ensures Even(Split(blk, bp, k, true, false), top)
  {
  }

  /** place, when the rest is split off: only the list is short of the rest. */
  lemma PlaceSplit(m: seq<Word>, v: seq<Word>, w: seq<Word>, blk: Blocks, top: int, free: seq<int>, bp: int, k: int)
    requires WellFormed(m, blk, top, free) && bp in free && Cuts(blk, bp, k) && k % 2 == 0
    requires 1 <= bp && bp + 4 <= End(blk, bp) <= top <= |m|
    requires var t: Word := Tag(Block(k, true)); var m1: seq<Word> := m[bp - 1 := t][bp + k - 2 := t];
             Linked(m1, free) && v == Unlinked(m1, free, IndexOf(free, bp))
    requires |v| == |m| && var t: Word := Tag(Block(blk[bp].n - k, false)); w == v[bp + k - 1 := t][End(blk, bp) - 2 := t]
    ensures WellFormedBut(w, Split(blk, bp, k, true, false), top, Without(free, bp), bp + k)
    ensures Payloads(w, Split(blk, bp, k, true, false)) - {bp} == Payloads(m, blk)
  {
    hide Tagged, Coalesced, Split, Payload, Payloads, Unlinked, Without, LinkAt;
    var t: Word := Tag(Block(k, true));
    var m1: seq<Word> := m[bp - 1 := t][bp + k - 2 := t];
    var i := IndexOf(free, bp);
    var u := Unlinked(m, free, i);
    PlaceUnlinks(m, m1, blk, top, free, bp, bp + k, t);
    UnlinkStep(m, u, blk, top, free, i);
    SplitTagged(u, w, blk, top, bp, k, true, false);
    SplitEven(blk, top, bp, k);
    PlaceRest(m, u, w, blk, top, free, bp, End(blk, bp));
    SplitLists(blk, top, free, bp, k);
    OthersKeep(u, w, blk, top, bp);
    SplitLive(blk, top, bp, k);
    TakenPayloads(u, w, blk, Split(blk, bp, k, true, false), bp);
  }

  lemma SplitLive(blk: Blocks, top: int, bp: int, k: int)
    requires Tiled(blk, top) && Cuts(blk, bp, k) && !blk[bp].alloc
    ensures var g := Split(blk, bp, k, true, false);
      && (forall a :: a in blk && blk[a].alloc ==> a in g && g[a] == blk[a])
      && (forall a :: a in g && g[a].alloc && a != bp ==> a in blk && blk[a].alloc)
  {
  }

  /** The rest has no free neighbour, so coalesce only lists it. */
  lemma RestStandsAlone(blk: Blocks, top: int, free: seq<int>, bp: int, k: int)
    requires Tiled(blk, top) && ListsFree(blk, free, NULL) && Coalesced(blk, NULL) && bp in free && Cuts(blk, bp, k)
    ensures var g := Split(blk, bp, k, true, false);
            Tiled(g, top) && Merged(g, top, bp + k) == g
            && MergedList(g, top, Without(free, bp), bp + k) == [bp + k] + Without(free, bp)
  {
    hide ListsFree, Coalesced, Apart, NextOk;
    SplitTiled(blk, top, bp, k, true, false);
    RestNeighbours(blk, top, free, bp, k);
    var g := Split(blk, bp, k, true, false);
    RunIsRun(g, top, bp + k);
    forall a | a in g ensures !(bp + k < a < End(g, bp + k)) { NoneInside(g, top, bp + k, a); }
    WithoutAbsent(Without(free, bp), End(g, bp + k));
    WithoutAbsent(Without(free, bp), bp);
  }

  lemma RestNeighbours(blk: Blocks, top: int, free: seq<int>, bp: int, k: int)
    requires Tiled(blk, top) && ListsFree(blk, free, NULL) && Coalesced(blk, NULL) && bp in free && Cuts(blk, bp, k)
    requires Tiled(Split(blk, bp, k, true, false), top)
    ensures var g := Split(blk, bp, k, true, false);
            Prev(g, top, bp + k) == bp && bp !in Without(free, bp) && End(g, bp + k) !in Without(free, bp)
            && RunHi(g, bp + k) == End(g, bp + k)
  {
    var g := Split(blk, bp, k, true, false);
    PrevUnique(g, top, Prev(g, top, bp + k), bp);
    assert Calm(blk, bp, NULL);
    WithoutProps(free, bp);
  }

  // ---- growing at the break -------------------------------------------------------------------

  /** extend_heap before it coalesces: a new free block of n words at the old break. */
  ghost function Grown(blk: Blocks, top: int, n: nat): Blocks {
    blk[top := Block(n, false)]
  }

  lemma GrownApart(blk: Blocks, top: int, n: nat)
    requires Tiled(blk, top)
    ensures top !in blk && Apart(Grown(blk, top, n))
  {
  }

  lemma GrownTiled(blk: Blocks, top: int, n: nat)
    requires Tiled(blk, top) && MINIMUM <= n
    ensures Tiled(Grown(blk, top, n), top + n) && top !in blk
  {
    var g := Grown(blk, top, n);
    GrownApart(blk, top, n);
    hide Apart;
    forall a | a in g ensures NextOk(g, top + n, a) { if a != top { assert NextOk(blk, top, a); } }
  }

  lemma GrowStep(m: seq<Word>, w: seq<Word>, blk: Blocks, top: int, free: seq<int>, n: nat)
    requires WellFormed(m, blk, top, free) && MINIMUM <= n && n % 2 == 0 && 1 <= top && top + n <= |m|
    requires w == m[top - 1 := 4 * n][top + n - 2 := 4 * n][top + n - 1 := 1]
    ensures WellFormedBut(w, Grown(blk, top, n), top + n, free, top)
    ensures Payloads(w, Grown(blk, top, n)) == Payloads(m, blk) && PROLOGUE + 2 <= top
  {
    GrownTiled(blk, top, n);
    assert NULL !in blk;
    hide Tiled, Tagged;
    GrowRest(m, w, blk, top, free, n);
    hide Linked;
    GrownCalm(blk, top, free, n);
  }

  lemma GrownCalm(blk: Blocks, top: int, free: seq<int>, n: nat)
    requires top !in blk && NULL !in blk && ListsFree(blk, free, NULL) && Coalesced(blk, NULL)
    ensures ListsFree(Grown(blk, top, n), free, top) && Coalesced(Grown(blk, top, n), top)
  {
    var g := Grown(blk, top, n);
    forall a | a in g ensures Calm(g, a, top) { if a != top { assert Calm(blk, a, NULL); } }
  }

  lemma GrowRest(m: seq<Word>, w: seq<Word>, blk: Blocks, top: int, free: seq<int>, n: nat)
    requires WellFormed(m, blk, top, free) && MINIMUM <= n && n % 2 == 0 && 1 <= top && top + n <= |m|
    requires w == m[top - 1 := 4 * n][top + n - 2 := 4 * n][top + n - 1 := 1]
    ensures Linked(w, free) && Payloads(w, Grown(blk, top, n)) == Payloads(m, blk)
  {
    assert top !in blk by { GrownTiled(blk, top, n); }
    forall f | f in free ensures w[f] == m[f] && w[f + 1] == m[f + 1] { assert End(blk, f) <= top; }
    LinkedFrame(m, w, free);
    forall a | a in blk && a != PROLOGUE ensures Payload(w, a, blk[a]) == Payload(m, a, blk[a]) {
      assert End(blk, a) <= top;
    }
  }

  /** Where the free words at the end of the grown heap begin: at its last block if that was free, and otherwise at
      the old break. */
  ghost predicate FreeTail(blk: Blocks, top: int, bp: int) {
    && (bp == top || (bp in blk && !blk[bp].alloc && End(blk, bp) == top))
    && (forall f :: f in blk && !blk[f].alloc && End(blk, f) == top ==> bp == f)
  }

  /** The grown and merged block in one step. */
  lemma GrownBlock(blk: Blocks, top: int, n: nat, bp: int, merged: Blocks)
    requires Tiled(blk, top) && MINIMUM <= n && Tiled(Grown(blk, top, n), top + n) && top != PROLOGUE
    requires bp == RunLo(Grown(blk, top, n), top + n, top) && merged == Merged(Grown(blk, top, n), top + n, top)
    ensures FreeTail(blk, top, bp) && bp in merged && merged[bp] == Block(top + n - bp, false) && OthersStay(blk, merged, bp)
  {
    GrownTiled(blk, top, n);
  }

  // ---- first fit ------------------------------------------------------------------------------

  /** The first node of the list whose block holds k words; NULL if there is none. */
  ghost function FirstFit(blk: Blocks, free: seq<int>, k: int): int
    requires forall f :: f in free ==> f in blk
  {
    if free == [] then NULL
    else
      var f := free[0];
      assert f in free && f in blk;
      if k <= blk[f].n then f else FirstFit(blk, free[1..], k)
  }

  /** First fit finds a block exactly when some free block is large enough. */
  lemma {:induction false} FirstFitFinds(blk: Blocks, free: seq<int>, k: int)
    requires forall f :: f in free ==> f in blk && f != NULL
    ensures FirstFit(blk, free, k) != NULL <==> exists f :: f in free && f in blk && k <= blk[f].n
    ensures var f := FirstFit(blk, free, k); f != NULL ==> f in free && f in blk && k <= blk[f].n
  {
    if free != [] {
      FirstFitFinds(blk, free[1..], k);
      assert free == [free[0]] + free[1..];
    }
  }

  /** It is the first one in the list: every node before it is too small. */
  lemma {:induction false} FirstFitIsFirst(blk: Blocks, free: seq<int>, k: int) returns (i: nat)
    requires forall f :: f in free ==> f in blk && f != NULL
    ensures i <= |free| && FirstFit(blk, free, k) == (if i < |free| then free[i] else NULL)
    ensures i < |free| ==> free[i] in blk && k <= blk[free[i]].n
    ensures forall j :: 0 <= j < i ==> free[j] in blk && blk[free[j]].n < k
  {
    i := 0;
    if free != [] {
      var f := free[0];
      assert f in free && f in blk;
      if blk[f].n < k {
        assert forall f :: f in free[1..] ==> f in free;
        i := FirstFitIsFirst(blk, free[1..], k);
        assert forall j :: 0 < j < |free| ==> free[j] == free[1..][j - 1];
        i := i + 1;
      }
    }
  }

  /** The search may skip a node that does not fit. */
  lemma {:induction false} FirstFitSkips(blk: Blocks, free: seq<int>, k: int, i: nat)
    requires forall f :: f in free ==> f in blk
    requires i <= |free| && forall j :: 0 <= j < i ==> free[j] in blk && blk[free[j]].n < k
    ensures FirstFit(blk, free, k) == FirstFit(blk, free[i..], k)
  {
    if i > 0 {
      FirstFitSkips(blk, free[1..], k, i - 1);
      assert free[1..][i - 1..] == free[i..];
    }
  }

  // ---- the heap of mm_init --------------------------------------------------------------------

  const Prologue: Blocks := map[PROLOGUE := Block(2, true)]

  lemma InitStep(m: seq<Word>)
    requires 4 <= |m| < 0x2000_0000 && m[1] == m[2] == 9 && m[3] == 1
    ensures WellFormed(m, Prologue, 4, []) && Payloads(m, Prologue) == map[]
  {
    forall a | a in Prologue ensures NextOk(Prologue, 4, a) && Calm(Prologue, a, NULL) { }
  }

  lemma InitGrows(n: nat)
    requires MINIMUM <= n
    ensures var g := Grown(Prologue, 4, n);
            Tiled(g, 4 + n) && Merged(g, 4 + n, 4) == g && MergedList(g, 4 + n, [], 4) == [4] && RunLo(g, 4 + n, 4) == 4
  {
    forall a | a in Prologue ensures NextOk(Prologue, 4, a) { }
    GrownTiled(Prologue, 4, n);
    var g := Grown(Prologue, 4, n);
    PrevUnique(g, 4 + n, Prev(g, 4 + n, 4), PROLOGUE);
    assert Merged(g, 4 + n, 4) == g;
  }
}
