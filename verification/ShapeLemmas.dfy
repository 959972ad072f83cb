/** How the three views of the heap survive the writes of the allocator: link writes, tag writes that
    fuse a run of blocks, tag writes that split one, and growth at the break. */
module ShapeLemmas {
  import opened Shape

  /** PACK is undone by GET_SIZE and GET_ALLOC. */
  lemma TagFields(b: Block)
    requires b.n % 2 == 0 && b.n < 0x2000_0000
    ensures GetSize(Tag(b)) == 4 * b.n && GetAlloc(Tag(b)) == (if b.alloc then 1 else 0)
  {
  }

  /** What the macros read at block a. */
  lemma ReadTags(m: seq<Word>, blk: Blocks, top: int, a: int)
    requires Tiled(blk, top) && Even(blk, top) && Tagged(m, blk, top) && a in blk && |m| < 0x2000_0000
    ensures 2 <= a && End(blk, a) <= top <= |m| && a % 2 == 0 && 2 <= blk[a].n && blk[a].n % 2 == 0
    ensures m[a - 1] == m[End(blk, a) - 2]
    ensures GetSize(m[a - 1]) == 4 * blk[a].n && GetAlloc(m[a - 1]) == (if blk[a].alloc then 1 else 0)
  {
    TagFields(blk[a]);
  }

  /** The word at the end of a block: the next header, or the epilogue. */
  lemma ReadNext(m: seq<Word>, blk: Blocks, top: int, a: int)
    requires Tiled(blk, top) && Even(blk, top) && Tagged(m, blk, top) && a in blk && |m| < 0x2000_0000
    ensures 1 <= End(blk, a) <= top <= |m|
    ensures GetAlloc(m[End(blk, a) - 1]) == 0 <==> End(blk, a) in blk && !blk[End(blk, a)].alloc
    ensures GetAlloc(m[End(blk, a) - 1]) == 1 <==> !(End(blk, a) in blk && !blk[End(blk, a)].alloc)
  {
    assert NextOk(blk, top, a);
    if End(blk, a) in blk { TagFields(blk[End(blk, a)]); NoneInside(blk, top, End(blk, a), End(blk, a)); } 
  }

  // ---- geometry of the tiling -----------------------------------------------------------------

  /** At most one block ends at a given address. */
  lemma PrevUnique(blk: Blocks, top: int, p: int, q: int)
    requires Tiled(blk, top) && p in blk && q in blk && End(blk, p) == End(blk, q)
    ensures p == q
  {
  }

  /** No block starts inside another. */
  lemma NoneInside(blk: Blocks, top: int, b: int, a: int)
    requires Tiled(blk, top) && b in blk && a in blk
    ensures a <= b || End(blk, b) <= a
  {
  }

  /** Blocks lo up to (not including) hi become one. */
  ghost function Fused(blk: Blocks, lo: int, hi: int, alloc: bool): Blocks
    requires lo <= hi
  {
    (map a | a in blk && !(lo < a < hi) :: blk[a])[lo := Block(hi - lo, alloc)]
  }

  /** Where the fused run ends up. */
  ghost predicate Run(blk: Blocks, top: int, lo: int, hi: int) {
    lo in blk && lo != PROLOGUE && (hi in blk || hi == top) && lo < hi
  }

  lemma FusedApart(blk: Blocks, top: int, lo: int, hi: int, alloc: bool)
    requires Tiled(blk, top) && Run(blk, top, lo, hi)
    ensures Apart(Fused(blk, lo, hi, alloc))
  {
  }

  lemma FusedAt(blk: Blocks, top: int, lo: int, hi: int, alloc: bool, a: int)
    requires Tiled(blk, top) && Run(blk, top, lo, hi) && a in Fused(blk, lo, hi, alloc)
    ensures var g := Fused(blk, lo, hi, alloc);
            End(g, a) <= top && (a != PROLOGUE ==> PROLOGUE + 2 <= a && MINIMUM <= g[a].n) && NextOk(g, top, a)
  {
    assert NextOk(blk, top, a);
    assert End(blk, lo) <= hi;
    if a < lo { assert End(blk, a) <= lo; }
  }

  lemma FuseTiled(blk: Blocks, top: int, lo: int, hi: int, alloc: bool)
    requires Tiled(blk, top) && Run(blk, top, lo, hi)
    ensures Tiled(Fused(blk, lo, hi, alloc), top)
  {
    FusedApart(blk, top, lo, hi, alloc);
    var g := Fused(blk, lo, hi, alloc);
    hide NextOk, Apart;
    forall a | a in g
      ensures End(g, a) <= top && (a != PROLOGUE ==> PROLOGUE + 2 <= a && MINIMUM <= g[a].n) && NextOk(g, top, a)
    {
      FusedAt(blk, top, lo, hi, alloc, a);
    }
    assert PROLOGUE in g && g[PROLOGUE] == blk[PROLOGUE];
    hide Fused;
  }

  /** A block outside the run keeps its tags. */
  lemma FusedTags(m: seq<Word>, w: seq<Word>, blk: Blocks, top: int, lo: int, hi: int, a: int)
    requires Tiled(blk, top) && Tagged(m, blk, top) && Run(blk, top, lo, hi) && |m| == |w|
    requires forall i :: 0 <= i < |m| && !(lo - 1 <= i < hi - 1) ==> w[i] == m[i]
    requires a in blk && !(lo <= a < hi)
    ensures 2 <= a && End(blk, a) <= top && w[a - 1] == Tag(blk[a]) && w[End(blk, a) - 2] == Tag(blk[a])
  {
    assert m[a - 1] == Tag(blk[a]) && m[End(blk, a) - 2] == Tag(blk[a]);
    assert a < lo ==> End(blk, a) <= lo;
  }

  /** The tags of the fused block are written; the words between them may change freely. */
  lemma FuseTagged(m: seq<Word>, w: seq<Word>, blk: Blocks, top: int, lo: int, hi: int, alloc: bool)
    requires Tiled(blk, top) && Tagged(m, blk, top) && Run(blk, top, lo, hi)
    requires |m| == |w|
    requires forall i :: 0 <= i < |m| && !(lo - 1 <= i < hi - 1) ==> w[i] == m[i]
    requires w[lo - 1] == Tag(Block(hi - lo, alloc)) == w[hi - 2]
    ensures Tiled(Fused(blk, lo, hi, alloc), top) && Tagged(w, Fused(blk, lo, hi, alloc), top)
  {
    FuseTiled(blk, top, lo, hi, alloc);
    var g := Fused(blk, lo, hi, alloc);
    assert w[top - 1] == m[top - 1];
    hide Tiled;
    forall a | a in g ensures w[a - 1] == Tag(g[a]) && w[End(g, a) - 2] == Tag(g[a]) {
      if a != lo { FusedTags(m, w, blk, top, lo, hi, a); }
    }
  }

  lemma FuseEven(blk: Blocks, top: int, lo: int, hi: int, alloc: bool)
    requires Even(blk, top) && Run(blk, top, lo, hi)
    ensures Even(Fused(blk, lo, hi, alloc), top)
  {
  }

  /** Block a is cut in two at a + k. */
  ghost function Split(blk: Blocks, a: int, k: int, first: bool, rest: bool): Blocks
    requires a in blk && 0 <= k <= blk[a].n
  {
    blk[a := Block(k, first)][a + k := Block(blk[a].n - k, rest)]
  }

  ghost predicate Cuts(blk: Blocks, a: int, k: int) {
    a in blk && a != PROLOGUE && MINIMUM <= k && MINIMUM <= blk[a].n - k
  }

  lemma SplitApart(blk: Blocks, top: int, a: int, k: int, first: bool, rest: bool)
    requires Tiled(blk, top) && Cuts(blk, a, k)
    ensures Apart(Split(blk, a, k, first, rest)) && a + k !in blk
  {
  }

  lemma SplitAt(blk: Blocks, top: int, a: int, k: int, first: bool, rest: bool, b: int)
    requires Tiled(blk, top) && Cuts(blk, a, k) && b in Split(blk, a, k, first, rest)
    ensures var g := Split(blk, a, k, first, rest);
            End(g, b) <= top && (b != PROLOGUE ==> PROLOGUE + 2 <= b && MINIMUM <= g[b].n) && NextOk(g, top, b)
  {
    assert NextOk(blk, top, if b == a + k then a else b);
  }

  lemma SplitTiled(blk: Blocks, top: int, a: int, k: int, first: bool, rest: bool)
    requires Tiled(blk, top) && Cuts(blk, a, k)
    ensures Tiled(Split(blk, a, k, first, rest), top) && a + k !in blk
  {
    SplitApart(blk, top, a, k, first, rest);
    var g := Split(blk, a, k, first, rest);
    hide NextOk, Apart;
    forall b | b in g
      ensures End(g, b) <= top && (b != PROLOGUE ==> PROLOGUE + 2 <= b && MINIMUM <= g[b].n) && NextOk(g, top, b)
    {
      SplitAt(blk, top, a, k, first, rest, b);
    }
    assert PROLOGUE in g && g[PROLOGUE] == blk[PROLOGUE];
    hide Split;
  }

  lemma SplitTagOf(m: seq<Word>, w: seq<Word>, blk: Blocks, top: int, a: int, k: int, first: bool, rest: bool, b: int)
    requires Tiled(blk, top) && Tagged(m, blk, top) && Cuts(blk, a, k) && |m| == |w|
    requires forall i :: 0 <= i < |m| && !(a - 1 <= i < End(blk, a) - 1) ==> w[i] == m[i]
    requires w[a - 1] == Tag(Block(k, first)) == w[a + k - 2]
    requires w[a + k - 1] == Tag(Block(blk[a].n - k, rest)) == w[End(blk, a) - 2]
    requires b in Split(blk, a, k, first, rest)
    ensures var g := Split(blk, a, k, first, rest);
            2 <= b && 2 <= End(g, b) <= top && w[b - 1] == Tag(g[b]) && w[End(g, b) - 2] == Tag(g[b])
  {
    assert Run(blk, top, a, End(blk, a)) by { assert NextOk(blk, top, a); }
    if b != a && b != a + k {
      NoneInside(blk, top, a, b);
      FusedTags(m, w, blk, top, a, End(blk, a), b);
    }
    hide Apart, NextOk, Tag;
  }

  lemma SplitTagged(m: seq<Word>, w: seq<Word>, blk: Blocks, top: int, a: int, k: int, first: bool, rest: bool)
    requires Tiled(blk, top) && Tagged(m, blk, top) && Cuts(blk, a, k)
    requires |m| == |w|
    requires forall i :: 0 <= i < |m| && !(a - 1 <= i < End(blk, a) - 1) ==> w[i] == m[i]
    requires w[a - 1] == Tag(Block(k, first)) == w[a + k - 2]
    requires w[a + k - 1] == Tag(Block(blk[a].n - k, rest)) == w[End(blk, a) - 2]
    ensures Tiled(Split(blk, a, k, first, rest), top) && Tagged(w, Split(blk, a, k, first, rest), top)
  {
    assert top <= |m| && m[top - 1] == 1 && End(blk, a) <= top && w[top - 1] == m[top - 1];
    SplitTiled(blk, top, a, k, first, rest);
    var g := Split(blk, a, k, first, rest);
    hide Tiled, Split, Tag, Cuts;
    forall b | b in g
      ensures 2 <= b && 2 <= End(g, b) <= top && w[b - 1] == Tag(g[b]) && w[End(g, b) - 2] == Tag(g[b])
    {
      SplitTagOf(m, w, blk, top, a, k, first, rest, b);
    }
  }

  // ---- link writes ----------------------------------------------------------------------------

  lemma TagsOffLinks(blk: Blocks, top: int, a: int, F: set<int>)
    requires Tiled(blk, top) && a in blk
    requires forall f :: f in F ==> f in blk && f != PROLOGUE
    ensures a - 1 !in F && a - 2 !in F && End(blk, a) - 2 !in F && End(blk, a) - 3 !in F
  {
  }

  /** Writing the link words of some blocks of at least 16 bytes disturbs no tag. */
  lemma LinksKeepTags(m: seq<Word>, w: seq<Word>, blk: Blocks, top: int, F: set<int>)
    requires Tiled(blk, top) && Tagged(m, blk, top) && AgreeOff(m, w, F)
    requires forall f :: f in F ==> f in blk && f != PROLOGUE
    ensures Tagged(w, blk, top)
  {
    forall a | a in blk ensures w[a - 1] == Tag(blk[a]) && w[End(blk, a) - 2] == Tag(blk[a]) {
      TagsOffLinks(blk, top, a, F);
    }
    forall f | f in F ensures f < top - 2 { assert End(blk, f) <= top; }
    assert top - 1 !in F && top - 2 !in F;
  }

  lemma PayloadOffLinks(blk: Blocks, top: int, a: int, F: set<int>, i: int)
    requires Tiled(blk, top) && a in blk && blk[a].alloc && a != PROLOGUE && a <= i < End(blk, a) - 2
    requires forall f :: f in F ==> f in blk && f != PROLOGUE && !blk[f].alloc
    ensures i !in F && i - 1 !in F
  {
  }

  /** Writing the link words of free blocks changes no payload. */
  lemma LinksKeepPayloads(m: seq<Word>, w: seq<Word>, blk: Blocks, top: int, F: set<int>)
    requires Tiled(blk, top) && top <= |m| && AgreeOff(m, w, F)
    requires forall f :: f in F ==> f in blk && f != PROLOGUE && !blk[f].alloc
    ensures Payloads(w, blk) == Payloads(m, blk)
  {
    forall a | a in blk && blk[a].alloc && a != PROLOGUE
      ensures Payload(w, a, blk[a]) == Payload(m, a, blk[a])
    {
      forall i | a <= i < End(blk, a) - 2 ensures w[i] == m[i] { PayloadOffLinks(blk, top, a, F, i); }
    }
  }

  // ---- the free list --------------------------------------------------------------------------

  ghost function SetOf(s: seq<int>): set<int> { set x | x in s }

  /** What removeBlock writes when free[k] leaves the list. */
  ghost function Unlinked(m: seq<Word>, free: seq<int>, k: nat): seq<Word>
    requires k < |free| && Nodes(m, free)
  {
    var m1 := if k < |free| - 1 then m[free[k + 1] := m[free[k]]] else m;
    if k > 0 then m1[free[k - 1] + 1 := m[free[k] + 1]] else m1
  }

  /** What the words of another node become: only those of the neighbours change. */
  lemma UnlinkedWords(m: seq<Word>, free: seq<int>, k: nat, j: nat)
    requires Nodes(m, free) && k < |free| && j < |free| && j != k
    ensures Unlinked(m, free, k)[free[j]] == m[free[if j == k + 1 then k else j]]
    ensures Unlinked(m, free, k)[free[j] + 1] == m[free[if j == k - 1 then k else j] + 1]
  {
    assert k + 1 < |free| && j != k + 1 ==> free[j] != free[k + 1];
    assert k > 0 && j != k - 1 ==> free[j] != free[k - 1];
    assert k + 1 < |free| ==> free[k + 1] % 2 == 0;
  }

  lemma UnlinkAt(m: seq<Word>, free: seq<int>, k: nat, i: int)
    requires Linked(m, free) && k < |free| && 0 <= i < |free| - 1
    ensures LinkAt(Unlinked(m, free, k), free[..k] + free[k + 1..], i)
  {
    var g := free[..k] + free[k + 1..];
    var j := if i < k then i else i + 1;
    assert g[i] == free[j];
    assert LinkAt(m, free, j) && LinkAt(m, free, k);
    UnlinkedWords(m, free, k, j);
    hide Unlinked, Nodes;
    assert PrevNode(g, i) == if j == k + 1 then PrevNode(free, k) else PrevNode(free, j);
    assert NextNode(g, i) == if j == k - 1 then NextNode(free, k) else NextNode(free, j);
  }

  lemma UnlinkLinked(m: seq<Word>, free: seq<int>, k: nat)
    requires Linked(m, free) && k < |free|
    ensures Linked(Unlinked(m, free, k), free[..k] + free[k + 1..])
  {
    var g := free[..k] + free[k + 1..];
    forall i | 0 <= i < |g| ensures LinkAt(Unlinked(m, free, k), g, i) { UnlinkAt(m, free, k, i); }
  }

  lemma UnlinkAgrees(m: seq<Word>, free: seq<int>, k: nat)
    requires Linked(m, free) && k < |free|
    ensures AgreeOff(m, Unlinked(m, free, k), SetOf(free))
  {
  }

  /** What insertBlock writes when x joins at the front. */
  ghost function Pushed(m: seq<Word>, free: seq<int>, x: Word): seq<Word>
    requires Nodes(m, free) && 0 < x < |m| - 1 && |m| < 0x1_0000_0000
  {
    if free == [] then m[x := 0][x + 1 := 0] else m[free[0] := x][x := 0][x + 1 := free[0]]
  }

  lemma PushLinked(m: seq<Word>, free: seq<int>, x: Word)
    requires Linked(m, free) && 0 < x < |m| - 1 && x % 2 == 0 && x !in free && |m| < 0x1_0000_0000
    ensures Linked(Pushed(m, free, x), [x] + free)
    ensures AgreeOff(m, Pushed(m, free, x), SetOf(free) + {x})
  {
    var g := [x] + free;
    forall i | 0 <= i < |g| ensures LinkAt(Pushed(m, free, x), g, i) {
      if i > 0 { assert g[i] == free[i - 1]; assert LinkAt(m, free, i - 1); }
    }
  }

  lemma LinkedFrame(m: seq<Word>, w: seq<Word>, free: seq<int>)
    requires Linked(m, free) && |m| == |w|
    requires forall f :: f in free ==> w[f] == m[f] && w[f + 1] == m[f + 1]
    ensures Linked(w, free)
  {
    forall i | 0 <= i < |free| ensures LinkAt(w, free, i) {
      assert LinkAt(m, free, i) && free[i] in free;
    }
  }
}
