/** What the branches of mm_realloc do to the three views. */
module ReallocLemmas {
  import opened Shape
  import opened ShapeLemmas
  import opened CoalesceLemmas
  import opened PlaceLemmas
  import opened Bytes

  /** A run that a live block grows into: itself, and possibly one neighbour on either side. */
  ghost predicate Span(blk: Blocks, top: int, ptr: int, lo: int, hi: int)
    requires Tiled(blk, top)
  {
    && Live(blk, ptr)
    && (lo == ptr || (lo == Prev(blk, top, ptr) && !blk[lo].alloc))
    && (hi == End(blk, ptr) || (End(blk, ptr) in blk && !blk[End(blk, ptr)].alloc && hi == End(blk, End(blk, ptr))))
  }

  lemma SpanIsRun(blk: Blocks, top: int, ptr: int, lo: int, hi: int)
    requires Tiled(blk, top) && Span(blk, top, ptr, lo, hi)
    ensures Run(blk, top, lo, hi) && hi <= top && PROLOGUE + 2 <= lo <= ptr && End(blk, ptr) <= hi
    ensures lo != ptr ==> lo + 4 <= ptr
    ensures Live(blk, ptr)
  {
    assert NextOk(blk, top, ptr);
    if End(blk, ptr) in blk { assert NextOk(blk, top, End(blk, ptr)); }
  }

  lemma SpanEven(blk: Blocks, top: int, ptr: int, lo: int, hi: int)
    requires Tiled(blk, top) && Even(blk, top) && Span(blk, top, ptr, lo, hi)
    ensures lo % 2 == 0 && hi % 2 == 0 && 4 * (hi - lo) % 8 == 0
  {
    SpanIsRun(blk, top, ptr, lo, hi);
    var p, q := lo / 2, hi / 2;
    assert lo == 2 * p && hi == 2 * q && 4 * (hi - lo) == 8 * (q - p);
  }

  /** rest is the list without the free blocks of the run. */
  ghost predicate Drops(free: seq<int>, rest: seq<int>, lo: int, hi: int) {
    forall f :: f in rest <==> f in free && !(lo <= f < hi)
  }

  /** Leaving the list are exactly the neighbours that the run takes in. */
  lemma SpanDrops(blk: Blocks, top: int, free: seq<int>, rest: seq<int>, ptr: int, lo: int, hi: int)
    requires Tiled(blk, top) && Span(blk, top, ptr, lo, hi) && ListsFree(blk, free, NULL)
    requires forall f :: f in rest <==> f in free && !(lo != ptr && f == lo) && !(hi != End(blk, ptr) && f == End(blk, ptr))
    ensures Drops(free, rest, lo, hi)
  {
  }

  lemma SpanCalm(blk: Blocks, top: int, ptr: int, lo: int, hi: int)
    requires Tiled(blk, top) && Span(blk, top, ptr, lo, hi) && Run(blk, top, lo, hi) && Coalesced(blk, NULL)
    ensures Coalesced(Fused(blk, lo, hi, true), NULL)
  {
    var g := Fused(blk, lo, hi, true);
    forall a | a in g ensures Calm(g, a, NULL) {
      assert Calm(blk, a, NULL);
      if a < lo { NoneInside(blk, top, a, lo); }
    }
  }

  lemma SpanLists(blk: Blocks, top: int, free: seq<int>, rest: seq<int>, ptr: int, lo: int, hi: int)
    requires Tiled(blk, top) && Span(blk, top, ptr, lo, hi) && Run(blk, top, lo, hi)
    requires ListsFree(blk, free, NULL) && Drops(free, rest, lo, hi)
    ensures ListsFree(Fused(blk, lo, hi, true), rest, NULL)
    ensures forall f :: f in rest ==> f in blk && f != PROLOGUE && !(lo <= f < hi)
  {
  }

  lemma SpanPayloadAt(u: seq<Word>, w: seq<Word>, blk: Blocks, top: int, ptr: int, lo: int, hi: int, a: int)
    requires Tiled(blk, top) && Span(blk, top, ptr, lo, hi) && Run(blk, top, lo, hi) && top <= |u| == |w|
    requires forall i :: 0 <= i < |u| && !(lo - 1 <= i < hi - 1) ==> w[i] == u[i]
    requires Live(blk, a) && a != ptr
    ensures !(lo <= a < hi) && Payload(w, a, blk[a]) == Payload(u, a, blk[a])
  {
  }

  lemma SpanPayloadOf(u: seq<Word>, w: seq<Word>, blk: Blocks, top: int, ptr: int, lo: int, hi: int, a: int)
    requires Tiled(blk, top) && Span(blk, top, ptr, lo, hi) && Run(blk, top, lo, hi) && top <= |u| == |w|
    requires forall i :: 0 <= i < |u| && !(lo - 1 <= i < hi - 1) ==> w[i] == u[i]
    ensures var p, q := Payloads(w, Fused(blk, lo, hi, true)) - {lo}, Payloads(u, blk) - {ptr};
            (a in p <==> a in q) && (a in p && a in q ==> p[a] == q[a])
  {
    SpanIsRun(blk, top, ptr, lo, hi);
    if Live(blk, a) && a != ptr { SpanPayloadAt(u, w, blk, top, ptr, lo, hi, a); }
    assert ptr in blk && lo <= ptr < hi;
    hide Span, Tiled, Run, Payload;
  }

  /** Payloads of the blocks outside the run stay. */
  lemma SpanPayloads(u: seq<Word>, w: seq<Word>, blk: Blocks, top: int, ptr: int, lo: int, hi: int)
    requires Tiled(blk, top) && Span(blk, top, ptr, lo, hi) && Run(blk, top, lo, hi) && top <= |u| == |w|
    requires forall i :: 0 <= i < |u| && !(lo - 1 <= i < hi - 1) ==> w[i] == u[i]
    ensures Payloads(w, Fused(blk, lo, hi, true)) - {lo} == Payloads(u, blk) - {ptr}
  {
    var p, q := Payloads(w, Fused(blk, lo, hi, true)) - {lo}, Payloads(u, blk) - {ptr};
    hide Tiled, Span, Run, Fused, Payloads;
    forall a ensures (a in p <==> a in q) && (a in p && a in q ==> p[a] == q[a]) {
      SpanPayloadOf(u, w, blk, top, ptr, lo, hi, a);
    }
  }

  /** The live block ptr takes over a run: the neighbours have left the list (u), the tags of the run
      are written, and the words in between hold whatever was copied there (w). */
  lemma TakeSpan(m: seq<Word>, u: seq<Word>, w: seq<Word>, blk: Blocks, top: int,
                 free: seq<int>, rest: seq<int>, ptr: int, lo: int, hi: int)
    requires WellFormed(m, blk, top, free) && Span(blk, top, ptr, lo, hi) && Drops(free, rest, lo, hi)
    requires |u| == |m| == |w| && Tagged(u, blk, top) && Linked(u, rest) && Payloads(u, blk) == Payloads(m, blk)
    requires 1 <= lo && 2 <= hi <= top <= |m|
    requires forall i :: 0 <= i < |u| && !(lo - 1 <= i < hi - 1) ==> w[i] == u[i]
    requires lo <= hi && w[lo - 1] == Tag(Block(hi - lo, true)) == w[hi - 2]
    ensures lo < hi && WellFormed(w, Fused(blk, lo, hi, true), top, rest)
    ensures Payloads(w, Fused(blk, lo, hi, true)) - {lo} == Payloads(m, blk) - {ptr}
  {
    SpanIsRun(blk, top, ptr, lo, hi);
    hide Tiled, Tagged, Even, Linked, ListsFree, Coalesced, Fused, Payloads, Span, Drops;
    SpanLists(blk, top, free, rest, ptr, lo, hi);
    FuseStep(u, w, blk, top, rest, lo, hi, true);
    SpanCalm(blk, top, ptr, lo, hi);
    SpanPayloads(u, w, blk, top, ptr, lo, hi);
  }

  /** The first n bytes at word r of w are those at word ptr of m. */
  ghost predicate KeepsBytes(m: seq<Word>, ptr: int, w: seq<Word>, r: int, n: nat) {
    && 0 <= ptr && 4 * ptr + n <= 4 * |m| && 0 <= r && 4 * r + n <= 4 * |w|
    && BytesFrom(w, r, n) == BytesFrom(m, ptr, n)
  }

  lemma PrefixBytes(m: seq<Word>, w: seq<Word>, ptr: int, j: nat)
    requires 0 <= ptr && ptr + j <= |m| && ptr + j <= |w| && m[ptr .. ptr + j] == w[ptr .. ptr + j]
    ensures KeepsBytes(m, ptr, w, ptr, 4 * j)
  {
    forall k | 0 <= k < 4 * j ensures BytesFrom(w, ptr, 4 * j)[k] == BytesFrom(m, ptr, 4 * j)[k] {
      ToBytesAt(m, ptr, ptr + j, k);
      ToBytesAt(w, ptr, ptr + j, k);
    }
  }

  /** The words that a live block owns. */
  lemma OwnedWords(m: seq<Word>, blk: Blocks, top: int, a: int)
    requires Tiled(blk, top) && top <= |m| && Live(blk, a)
    ensures a in Payloads(m, blk) && Payloads(m, blk)[a] == Payload(m, a, blk[a]) == m[a .. a + blk[a].n - 2]
    ensures |Payloads(m, blk)[a]| == blk[a].n - 2
  {
  }

  lemma OwnedLive(m: seq<Word>, blk: Blocks, a: int)
    requires Live(blk, a)
    ensures a in Payloads(m, blk)
  {
  }

  lemma OwnedIsLive(m: seq<Word>, blk: Blocks, a: int)
    requires a in Payloads(m, blk)
    ensures Live(blk, a)
  {
  }

  /** A live block whose words are those m had there keeps their bytes. */
  lemma KeptPrefix(m: seq<Word>, x: seq<Word>, blk: Blocks, top: int, free: seq<int>, ptr: int, k: int)
    requires WellFormed(x, blk, top, free) && 0 <= ptr && 2 <= k && ptr + k - 2 <= |m|
    requires ptr in Payloads(x, blk) && Payloads(x, blk)[ptr] == m[ptr .. ptr + k - 2]
    ensures Live(blk, ptr) && blk[ptr].n == k && KeepsBytes(m, ptr, x, ptr, 4 * (k - 2))
  {
    OwnedIsLive(x, blk, ptr);
    OwnedWords(x, blk, top, ptr);
    ReadTags(x, blk, top, ptr);
    hide Payload, Tiled, Tagged, Linked, BytesFrom;
    PrefixBytes(m, x, ptr, k - 2);
  }

  /** A live block that grew upwards keeps its words. */
  lemma KeptBelow(m: seq<Word>, w: seq<Word>, ptr: int, n: nat, hi: int)
    requires 1 <= ptr && ptr + n <= hi <= |m| == |w| && 2 <= n && forall i :: ptr <= i < ptr + n - 2 ==> w[i] == m[i]
    ensures KeepsBytes(m, ptr, w, ptr, 4 * (n - 2))
  {
    PrefixBytes(m, w, ptr, n - 2);
  }

  /** The bytes of a payload, after its words were moved down by memcpy. */
  lemma MovedBytes(m: seq<Word>, v: seq<Word>, w: seq<Word>, ptr: int, r: int, b: Block, n: nat)
    requires |m| == |v| == |w| && 2 <= b.n && 0 <= ptr && ptr + b.n <= |m| && 0 <= r && 4 * r + n <= 4 * |m|
    requires n <= 4 * (b.n - 2) && m[ptr .. ptr + b.n - 2] == v[ptr .. ptr + b.n - 2]
    requires forall x :: 4 * r <= x < 4 * r + n ==> ByteAt(w, x) == ByteAt(v, 4 * ptr + x - 4 * r)
    ensures KeepsBytes(m, ptr, w, r, n)
  {
    PrefixBytes(m, v, ptr, b.n - 2);
    forall k | 0 <= k < n ensures BytesFrom(w, r, n)[k] == BytesFrom(m, ptr, n)[k] {
      assert BytesFrom(v, ptr, 4 * (b.n - 2))[k] == BytesFrom(m, ptr, 4 * (b.n - 2))[k];
      assert ByteAt(w, 4 * r + k) == ByteAt(v, 4 * ptr + (4 * r + k) - 4 * r);
    }
  }

  /** The n words at ptr have been copied, as bytes, to lo, and nothing else has changed. */
  ghost predicate CopiedDown(v: seq<Word>, w: seq<Word>, ptr: int, lo: int, n: nat) {
    && |v| == |w| && 0 <= lo <= ptr && ptr + n <= |v|
    && (forall x :: 4 * lo <= x < 4 * lo + 4 * n ==> ByteAt(w, x) == ByteAt(v, 4 * ptr + x - 4 * lo))
    && (forall i :: 0 <= i < |v| && (4 * i + 4 <= 4 * lo || 4 * lo + 4 * n <= 4 * i) ==> w[i] == v[i])
  }

  /** The run is tagged (v) and the payload has been moved down to its front (w). */
  lemma SlideDone(m: seq<Word>, u: seq<Word>, v: seq<Word>, w: seq<Word>, blk: Blocks, top: int,
                  free: seq<int>, rest: seq<int>, ptr: int, lo: int, hi: int)
    requires WellFormed(m, blk, top, free) && Span(blk, top, ptr, lo, hi) && Drops(free, rest, lo, hi)
    requires |u| == |m| == |v| == |w| && Tagged(u, blk, top) && Linked(u, rest) && Payloads(u, blk) == Payloads(m, blk)
    requires 1 <= lo < lo + 4 <= ptr < ptr + 4 <= End(blk, ptr) <= hi <= top <= |m|
    requires var t: Word := Tag(Block(hi - lo, true)); v == u[lo - 1 := t][hi - 2 := t]
    requires CopiedDown(v, w, ptr, lo, blk[ptr].n)
    ensures WellFormed(w, Fused(blk, lo, hi, true), top, rest)
    ensures Payloads(w, Fused(blk, lo, hi, true)) - {lo} == Payloads(m, blk) - {ptr}
    ensures KeepsBytes(m, ptr, w, lo, 4 * blk[ptr].n - 8)
  {
    SpanIsRun(blk, top, ptr, lo, hi);
    hide Tiled, Tagged, Even, Linked, ListsFree, Coalesced, Fused, Payloads, Payload, Span, Drops, ByteAt, KeepsBytes, Live;
    TakeSpan(m, u, w, blk, top, free, rest, ptr, lo, hi);
    SlideBytes(m, u, v, w, blk, ptr, lo, hi, Tag(Block(hi - lo, true)));
  }

  lemma SlideBytes(m: seq<Word>, u: seq<Word>, v: seq<Word>, w: seq<Word>, blk: Blocks, ptr: int, lo: int, hi: int, t: Word)
    requires |u| == |m| == |w| && Payloads(u, blk) == Payloads(m, blk) && Live(blk, ptr)
    requires 1 <= lo < lo + 4 <= ptr < ptr + 4 <= End(blk, ptr) <= hi <= |m| && v == u[lo - 1 := t][hi - 2 := t]
    requires forall x :: 4 * lo <= x < 4 * lo + 4 * blk[ptr].n ==> ByteAt(w, x) == ByteAt(v, 4 * ptr + x - 4 * lo)
    ensures KeepsBytes(m, ptr, w, lo, 4 * blk[ptr].n - 8)
  {
    hide Payloads, Payload, ByteAt;
    SamePayload(m, u, blk, ptr);
    assert m[ptr .. ptr + blk[ptr].n - 2] == v[ptr .. ptr + blk[ptr].n - 2];
    MovedBytes(m, v, w, ptr, lo, blk[ptr], 4 * blk[ptr].n - 8);
  }

  /** A header of size 0 above a block is the epilogue, and the break is there. */
  lemma LastOrNot(m: seq<Word>, blk: Blocks, top: int, ptr: int)
    requires Tiled(blk, top) && Even(blk, top) && Tagged(m, blk, top) && |m| < 0x2000_0000 && Live(blk, ptr)
    ensures 1 <= End(blk, ptr) <= |m| && (GetSize(m[End(blk, ptr) - 1]) == 0 <==> End(blk, ptr) == top)
    ensures End(blk, ptr) == top ==> top !in blk
  {
    assert NextOk(blk, top, ptr);
    if End(blk, ptr) in blk { ReadTags(m, blk, top, End(blk, ptr)); }
  }

  lemma FreeIsListed(blk: Blocks, free: seq<int>, f: int)
    requires ListsFree(blk, free, NULL) && f in blk && !blk[f].alloc && f != NULL
    ensures f in free
  {
  }

  /** Equal payloads have equal words. */
  lemma SamePayload(m: seq<Word>, u: seq<Word>, blk: Blocks, ptr: int)
    requires |m| == |u| && Payloads(u, blk) == Payloads(m, blk) && Live(blk, ptr)
    requires 0 <= ptr && 2 <= blk[ptr].n && End(blk, ptr) <= |m|
    ensures m[ptr .. ptr + blk[ptr].n - 2] == u[ptr .. ptr + blk[ptr].n - 2]
    ensures forall i :: ptr <= i < ptr + blk[ptr].n - 2 ==> u[i] == m[i]
  {
    assert ptr in Payloads(m, blk) && Payloads(m, blk)[ptr] == Payloads(u, blk)[ptr];
    var a, b := m[ptr .. ptr + blk[ptr].n - 2], u[ptr .. ptr + blk[ptr].n - 2];
    forall i | ptr <= i < ptr + blk[ptr].n - 2 ensures u[i] == m[i] { assert a[i - ptr] == b[i - ptr]; }
  }

  /** Keeping bytes composes, on the shorter of the two lengths. */
  lemma KeepsTrans(m: seq<Word>, a: int, u: seq<Word>, b: int, w: seq<Word>, c: int, n: nat, big: nat)
    requires KeepsBytes(m, a, u, b, n) && KeepsBytes(u, b, w, c, big) && n <= big
    ensures KeepsBytes(m, a, w, c, n)
  {
    KeepsShorter(u, b, w, c, n, big);
  }

  lemma KeepsShorter(u: seq<Word>, b: int, w: seq<Word>, c: int, n: nat, big: nat)
    requires KeepsBytes(u, b, w, c, big) && n <= big
    ensures KeepsBytes(u, b, w, c, n)
  {
    forall k | 0 <= k < n ensures BytesFrom(w, c, n)[k] == BytesFrom(u, b, n)[k] {
      assert BytesFrom(w, c, big)[k] == BytesFrom(u, b, big)[k];
    }
  }

  /** A block whose payload two well-formed heaps share has the same size and bytes in both. */
  lemma OwnedKeeps(m: seq<Word>, blk: Blocks, top: int, free: seq<int>, u: seq<Word>, g: Blocks, top': int, free': seq<int>, a: int)
    requires WellFormed(m, blk, top, free) && WellFormed(u, g, top', free') && |m| == |u|
    requires Live(blk, a) && a in Payloads(u, g) && Payloads(u, g)[a] == Payloads(m, blk)[a]
    ensures Live(g, a) && g[a] == blk[a] && 2 <= blk[a].n && 1 <= a && End(blk, a) <= |m|
    ensures KeepsBytes(m, a, u, a, 4 * (blk[a].n - 2))
  {
    OwnedIsLive(u, g, a);
    OwnedWords(m, blk, top, a);
    OwnedWords(u, g, top', a);
    ReadTags(m, blk, top, a);
    ReadTags(u, g, top', a);
    hide Tiled, Tagged, Linked, Even, ListsFree, Coalesced, Payload, KeepsBytes;
    SamePayloadBytes(m, u, blk, g, a);
  }

  /** Blocks that keep size and words keep their bytes. */
  lemma SamePayloadBytes(m: seq<Word>, u: seq<Word>, blk: Blocks, g: Blocks, ptr: int)
    requires |m| == |u| && Live(blk, ptr) && Live(g, ptr) && g[ptr] == blk[ptr]
    requires Payloads(u, g)[ptr] == Payloads(m, blk)[ptr]
    requires 0 <= ptr && 2 <= blk[ptr].n && End(blk, ptr) <= |m|
    ensures KeepsBytes(m, ptr, u, ptr, 4 * (blk[ptr].n - 2))
  {
    PrefixBytes(m, u, ptr, blk[ptr].n - 2);
  }

  /** Cutting the tail off a live block: only the list is short of the tail, which may have a free
      neighbour above it. */
  lemma ShrinkStep(m: seq<Word>, w: seq<Word>, blk: Blocks, top: int, free: seq<int>, ptr: int, k: int)
    requires WellFormed(m, blk, top, free) && Live(blk, ptr) && Cuts(blk, ptr, k) && k % 2 == 0
    requires 1 <= ptr && End(blk, ptr) <= top <= |m|
    requires var t: Word := Tag(Block(k, true)); var t': Word := Tag(Block(blk[ptr].n - k, false));
             w == m[ptr - 1 := t][ptr + k - 2 := t][ptr + k - 1 := t'][End(blk, ptr) - 2 := t']
    ensures WellFormedBut(w, Split(blk, ptr, k, true, false), top, free, ptr + k)
    ensures Payloads(w, Split(blk, ptr, k, true, false)) - {ptr} == Payloads(m, blk) - {ptr}
    ensures Payload(w, ptr, Block(k, true)) == m[ptr .. ptr + k - 2]
  {
    hide Tagged, Linked, Coalesced, Split, Payloads;
    SplitTagged(m, w, blk, top, ptr, k, true, false);
    ShrinkEven(blk, top, ptr, k);
    LiveUnlisted(blk, top, free, ptr);
    ShrinkLinks(m, w, blk, top, free, ptr);
    ShrinkLists(blk, top, free, ptr, k);
    OthersKeep(m, w, blk, top, ptr);
    ShrinkPayloads(m, w, blk, top, ptr, k);
  }

  lemma EvenWords(n: int)
    requires n % 8 == 0
    ensures n == 4 * (n / 4) && n / 4 % 2 == 0
  {
    assert n == 8 * (n / 8);
  }

  /** The same in bytes, with what the block has. */
  lemma ShrinkLeaves(m: seq<Word>, w: seq<Word>, blk: Blocks, top: int, free: seq<int>, ptr: int, newsize: Word, rest: Word)
    requires WellFormed(m, blk, top, free) && Live(blk, ptr) && newsize + rest == 4 * blk[ptr].n
    requires newsize % 8 == 0 && 16 <= newsize && 16 <= rest && newsize + 1 < 0x1_0000_0000
    requires 1 <= ptr && ptr + newsize / 4 + rest / 4 <= |m|
    requires w == m[ptr - 1 := newsize + 1][ptr + newsize / 4 - 2 := newsize + 1]
                   [ptr + newsize / 4 - 1 := rest][ptr + newsize / 4 + rest / 4 - 2 := rest]
    ensures newsize / 4 <= blk[ptr].n
    ensures var k := newsize / 4; var g := Split(blk, ptr, k, true, false);
      && WellFormedBut(w, g, top, free, ptr + k) && Tiled(g, top) && ptr + k in g && ptr + k != PROLOGUE && !g[ptr + k].alloc
      && Payloads(w, g) - {ptr} == Payloads(m, blk) - {ptr}
      && ptr in Payloads(w, g) && Payloads(w, g)[ptr] == m[ptr .. ptr + k - 2]
  {
    var k := newsize / 4;
    hide Tiled, Even, Tagged, Linked, Coalesced, ListsFree, Payload, Payloads;
    EvenWords(newsize);
    ReadTags(m, blk, top, ptr);
    assert rest / 4 == blk[ptr].n - k;
    assert Cuts(blk, ptr, k) && Tag(Block(k, true)) == newsize + 1 && Tag(Block(blk[ptr].n - k, false)) == rest;
    hide Tag, Cuts;
    ShrinkStep(m, w, blk, top, free, ptr, k);
    SplitTiled(blk, top, ptr, k, true, false);
    var g := Split(blk, ptr, k, true, false);
    assert Live(g, ptr) && g[ptr] == Block(k, true);
    hide Split;
    OwnedWords(w, g, top, ptr);
  }

  lemma ShrinkEven(blk: Blocks, top: int, ptr: int, k: int)
    requires Even(blk, top) && Cuts(blk, ptr, k) && k % 2 == 0
    ensures Even(Split(blk, ptr, k, true, false), top)
  {
  }

  lemma ShrinkLinks(m: seq<Word>, w: seq<Word>, blk: Blocks, top: int, free: seq<int>, ptr: int)
    requires Tiled(blk, top) && Linked(m, free) && ListsFree(blk, free, NULL) && Live(blk, ptr) && top <= |m| == |w|
    requires forall i :: 0 <= i < |m| && !(ptr - 1 <= i < End(blk, ptr) - 1) ==> w[i] == m[i]
    ensures Linked(w, free)
  {
    forall f | f in free ensures w[f] == m[f] && w[f + 1] == m[f + 1] {
      NoneInside(blk, top, ptr, f);
      NoneInside(blk, top, f, ptr);
    }
    LinkedFrame(m, w, free);
  }

  lemma ShrinkLists(blk: Blocks, top: int, free: seq<int>, ptr: int, k: int)
    requires Tiled(blk, top) && ListsFree(blk, free, NULL) && Coalesced(blk, NULL) && Live(blk, ptr) && Cuts(blk, ptr, k)
    ensures var g := Split(blk, ptr, k, true, false);
            ListsFree(g, free, ptr + k) && Coalesced(g, ptr + k)
  {
    SplitTiled(blk, top, ptr, k, true, false);
    var g := Split(blk, ptr, k, true, false);
    forall a | a in g ensures Calm(g, a, ptr + k) { if a != ptr + k { assert Calm(blk, a, NULL); } }
  }

  lemma ShrinkPayloads(m: seq<Word>, w: seq<Word>, blk: Blocks, top: int, ptr: int, k: int)
    requires Tiled(blk, top) && Live(blk, ptr) && Cuts(blk, ptr, k)
    requires forall a :: a in blk && a != ptr && a != PROLOGUE ==> Payload(w, a, blk[a]) == Payload(m, a, blk[a])
    ensures Payloads(w, Split(blk, ptr, k, true, false)) - {ptr} == Payloads(m, blk) - {ptr}
  {
  }

  // ---- the branch that grows the heap ---------------------------------------------------------

  /** The blocks from ptr up to e, cut anew into k words and a rest, both allocated. */
  ghost function TwoOf(blk: Blocks, ptr: int, k: int, e: int): Blocks
    requires ptr + k <= e && 0 <= k
  {
    Split(Fused(blk, ptr, e, true), ptr, k, true, true)
  }

  /** The heap has grown behind ptr and the new block is off the list: ptr becomes k words, and the rest
      a live block that mm_free is then handed. */
  lemma GrowTail(u: seq<Word>, w: seq<Word>, blk: Blocks, top: int, free: seq<int>, ptr: int, k: int, e: int)
    requires Tiled(blk, top) && Even(blk, top) && Tagged(u, blk, top) && Linked(u, free) && |u| < 0x2000_0000
    requires Live(blk, ptr) && End(blk, ptr) in blk && !blk[End(blk, ptr)].alloc && e == End(blk, End(blk, ptr))
    requires ListsFree(blk, free, End(blk, ptr)) && Coalesced(blk, End(blk, ptr))
    requires k % 2 == 0 && blk[ptr].n < k && MINIMUM <= e - (ptr + k) && 1 <= ptr && ptr + k + 4 <= e <= |u|
    requires var t: Word := Tag(Block(k, true)); var t': Word := Tag(Block(e - (ptr + k), true));
             w == u[ptr - 1 := t][ptr + k - 2 := t][ptr + k - 1 := t'][e - 2 := t']
    ensures var g := TwoOf(blk, ptr, k, e);
            WellFormed(w, g, top, free) && Live(g, ptr + k) && Live(g, ptr) && g[ptr].n == k
            && Payloads(w, g) - {ptr, ptr + k} == Payloads(u, blk) - {ptr}
  {
    assert top <= |u|;
    hide Tagged, Linked, Coalesced, Payloads, ListsFree, Even;
    var f := Fused(blk, ptr, e, true);
    var x: Word := Tag(Block(e - ptr, true));
    var v: seq<Word> := u[ptr - 1 := x][e - 2 := x];
    GrowFuse(u, v, blk, top, free, ptr, e);
    assert f[ptr] == Block(e - ptr, true) && Cuts(f, ptr, k) && Live(f, ptr);
    GrowWords(u, v, w, ptr, k, e, x, Tag(Block(k, true)), Tag(Block(e - (ptr + k), true)));
    hide Tiled, Span, Run, Calm, Fused, Tag, Split;
    SplitTagged(v, w, f, top, ptr, k, true, true);
    SpanPayloads(u, w, blk, top, ptr, ptr, e);
    GrowFinish(v, w, f, top, free, ptr, k);
  }

  lemma GrowWords(u: seq<Word>, v: seq<Word>, w: seq<Word>, ptr: int, k: int, e: int, x: Word, t: Word, t': Word)
    requires 1 <= ptr && 4 <= k && ptr + k + 4 <= e <= |u|
    requires v == u[ptr - 1 := x][e - 2 := x] && w == u[ptr - 1 := t][ptr + k - 2 := t][ptr + k - 1 := t'][e - 2 := t']
    ensures |v| == |w| == |u|
    ensures forall i :: 0 <= i < |u| && !(ptr - 1 <= i < e - 1) ==> w[i] == u[i] && w[i] == v[i]
    ensures w[ptr - 1] == t == w[ptr + k - 2] && w[ptr + k - 1] == t' == w[e - 2]
  {
  }

  /** The first half: block and new words as one live block. */
  lemma GrowFuse(u: seq<Word>, v: seq<Word>, blk: Blocks, top: int, free: seq<int>, ptr: int, e: int)
    requires Tiled(blk, top) && Even(blk, top) && Tagged(u, blk, top) && Linked(u, free) && |u| < 0x2000_0000
    requires Live(blk, ptr) && End(blk, ptr) in blk && !blk[End(blk, ptr)].alloc && e == End(blk, End(blk, ptr))
    requires ListsFree(blk, free, End(blk, ptr)) && Coalesced(blk, End(blk, ptr))
    requires 1 <= ptr <= e - 8 && e <= |u|
    requires v == u[ptr - 1 := Tag(Block(e - ptr, true))][e - 2 := Tag(Block(e - ptr, true))]
    ensures Span(blk, top, ptr, ptr, e) && Run(blk, top, ptr, e)
    ensures WellFormed(v, Fused(blk, ptr, e, true), top, free)
  {
    assert Span(blk, top, ptr, ptr, e);
    SpanIsRun(blk, top, ptr, ptr, e);
    forall x | x in free ensures x in blk && x != PROLOGUE && !(ptr <= x < e) { }
    hide Tagged, Linked, Coalesced, Span, ListsFree;
    FuseStep(u, v, blk, top, free, ptr, e, true);
    GrowLeftover(blk, top, free, ptr, e);
  }

  lemma GrowSizes(blk: Blocks, top: int, ptr: int, newsize: int, freesize: int)
    requires Even(blk, top) && ptr in blk && newsize % 8 == 0 && newsize + freesize == 4 * (top - ptr)
    ensures freesize % 8 == 0 && newsize / 4 % 2 == 0 && ptr + newsize / 4 + freesize / 4 == top
  {
  }

  lemma GrowLeftover(blk: Blocks, top: int, free: seq<int>, ptr: int, e: int)
    requires Tiled(blk, top) && Live(blk, ptr) && End(blk, ptr) in blk && e == End(blk, End(blk, ptr))
    requires ListsFree(blk, free, End(blk, ptr)) && Coalesced(blk, End(blk, ptr)) && Run(blk, top, ptr, e)
    ensures ListsFree(Fused(blk, ptr, e, true), free, NULL) && Coalesced(Fused(blk, ptr, e, true), NULL)
  {
    var g := Fused(blk, ptr, e, true);
    forall a | a in g ensures Calm(g, a, NULL) {
      assert Calm(blk, a, End(blk, ptr));
      if a < ptr { NoneInside(blk, top, a, ptr); }
    }
  }

  lemma GrowFinish(v: seq<Word>, w: seq<Word>, f: Blocks, top: int, free: seq<int>, ptr: int, k: int)
    requires |v| == |w| < 0x2000_0000 && Tiled(f, top) && Even(f, top) && Linked(v, free) && top <= |v|
    requires ListsFree(f, free, NULL) && Coalesced(f, NULL)
    requires Live(f, ptr) && Cuts(f, ptr, k) && k % 2 == 0
    requires Tiled(Split(f, ptr, k, true, true), top) && Tagged(w, Split(f, ptr, k, true, true), top)
    requires forall i :: 0 <= i < |v| && !(ptr - 1 <= i < End(f, ptr) - 1) ==> w[i] == v[i]
    ensures var g := Split(f, ptr, k, true, true);
            WellFormed(w, g, top, free) && Live(g, ptr + k) && Live(g, ptr) && g[ptr].n == k
            && Payloads(w, g) - {ptr, ptr + k} == Payloads(w, f) - {ptr}
  {
    SplitTiled(f, top, ptr, k, true, true);
    ShrinkLinks(v, w, f, top, free, ptr);
    GrowEven(f, top, ptr, k);
    GrowCalm(f, top, free, ptr, k);
    hide Tagged, Linked, Even, Coalesced, ListsFree;
    hide Payloads;
  }

  lemma GrowEven(f: Blocks, top: int, ptr: int, k: int)
    requires Even(f, top) && Cuts(f, ptr, k) && k % 2 == 0
    ensures Even(Split(f, ptr, k, true, true), top)
  {
  }

  lemma GrowCalm(f: Blocks, top: int, free: seq<int>, ptr: int, k: int)
    requires Tiled(f, top) && ListsFree(f, free, NULL) && Coalesced(f, NULL) && Live(f, ptr) && Cuts(f, ptr, k)
    requires ptr + k !in f
    ensures ListsFree(Split(f, ptr, k, true, true), free, NULL) && Coalesced(Split(f, ptr, k, true, true), NULL)
  {
    var g := Split(f, ptr, k, true, true);
    forall a | a in g ensures Calm(g, a, NULL) { if a != ptr + k { assert Calm(f, a, NULL); } }
  }

  /** No well-formed heap that ends at top has a block less than four words below top. */
  lemma NoRoomNoBlock(blk: Blocks, top: int, a: int)
    requires Tiled(blk, top) && top < a + MINIMUM
    ensures !Live(blk, a)
  {
  }

  /** extend_heap next to a live last block: the new words form one free block of their own. */
  lemma GrownAlone(blk: Blocks, top: int, free: seq<int>, ptr: int, n: nat)
    requires Tiled(blk, top) && Live(blk, ptr) && End(blk, ptr) == top && MINIMUM <= n && ListsFree(blk, free, NULL)
    ensures var g := Grown(blk, top, n);
            Tiled(g, top + n) && Merged(g, top + n, top) == g && MergedList(g, top + n, free, top) == [top] + free
    ensures top !in free && Without([top] + free, top) == free
  {
    hide ListsFree, Tiled, Without, Merged, MergedList, Prev;
    GrownTiled(blk, top, n);
    GrownNeighbours(blk, top, free, ptr, n);
    GrownList(Grown(blk, top, n), top + n, free, ptr, top);
    WithoutFront(free, top);
  }

  lemma GrownList(g: Blocks, top: int, free: seq<int>, ptr: int, bp: int)
    requires Tiled(g, top) && bp in g && bp != PROLOGUE && Prev(g, top, bp) == ptr && ptr in g && g[ptr].alloc && End(g, bp) == top
    requires ptr !in free && top !in free
    ensures MergedList(g, top, free, bp) == [bp] + free
  {
    hide Tiled, Prev, Without;
    WithoutAbsent(free, top);
    WithoutAbsent(free, ptr);
  }

  lemma GrownNeighbours(blk: Blocks, top: int, free: seq<int>, ptr: int, n: nat)
    requires Tiled(blk, top) && Live(blk, ptr) && End(blk, ptr) == top && MINIMUM <= n && ListsFree(blk, free, NULL)
    requires Tiled(Grown(blk, top, n), top + n)
    ensures var g := Grown(blk, top, n);
            Prev(g, top + n, top) == ptr && Merged(g, top + n, top) == g
    ensures top !in free && ptr !in free && top + n !in free && top > PROLOGUE
  {
  }

  /** With the new block off the list again, the list is short of exactly that block. */
  lemma GrownUnlisted(blk: Blocks, top: int, free: seq<int>, x: int)
    requires Tiled(blk, top) && ListsFree(blk, [x] + free, NULL) && Coalesced(blk, NULL) && x !in free && x != NULL
    ensures ListsFree(blk, free, x) && Coalesced(blk, x)
  {
    forall f | f in free ensures f in blk && !blk[f].alloc { assert f in [x] + free; }
    forall a | a in blk ensures Calm(blk, a, x) { assert Calm(blk, a, NULL); }
  }

  // ---- writing into a payload -----------------------------------------------------------------

  /** The client writes into the payload of the live block p: the heap stays well formed and no other
      payload changes. */
  lemma WritePayload(m: seq<Word>, w: seq<Word>, blk: Blocks, top: int, free: seq<int>, p: int)
    requires WellFormed(m, blk, top, free) && Live(blk, p) && |w| == |m|
    requires forall i :: 0 <= i < |m| && !(p <= i < End(blk, p) - 2) ==> w[i] == m[i]
    ensures WellFormed(w, blk, top, free) && Payloads(w, blk) - {p} == Payloads(m, blk) - {p}
  {
    assert Tagged(w, blk, top) by {
      forall a | a in blk ensures w[a - 1] == Tag(blk[a]) && w[End(blk, a) - 2] == Tag(blk[a]) {
        NoneInside(blk, top, p, a);
        NoneInside(blk, top, a, p);
      }
    }
    ShrinkLinks(m, w, blk, top, free, p);
    OthersKeep(m, w, blk, top, p);
  }
}
