/** The layout of the heap as mm.c keeps it, on values: the blocks that tile the arena, the boundary
    tags that describe them, and the free list threaded through the free ones.  Addresses count 4-byte
    words from mem_start_brk, so word i is byte 4*i; 0 stands for NULL, which no block can have. */
module Shape {
  import opened Sequences

  type Word = x: int | 0 <= x < 0x1_0000_0000

  /** n is the whole block in words, tags included. */
  datatype Block = Block(n: nat, alloc: bool)

  /** Blocks are keyed by the pointer handed to clients, one word past the header. */
  type Blocks = map<int, Block>

  const NULL: int := 0
  const PROLOGUE: int := 2   // heap_listp
  const MINIMUM: int := 4    // 16 bytes

  /** PACK(size, alloc) for a block: the size in bytes is a multiple of 8, so the low bit is free. */
  function Tag(b: Block): int {
    4 * b.n + (if b.alloc then 1 else 0)
  }

  function End(blk: Blocks, a: int): int requires a in blk {
    a + blk[a].n
  }

  /** Either the epilogue or another block starts where block a ends. */
  predicate NextOk(blk: Blocks, top: int, a: int) requires a in blk {
    End(blk, a) == top || End(blk, a) in blk
  }

  ghost predicate Apart(blk: Blocks) {
    forall a, b :: a in blk && b in blk && a < b ==> End(blk, a) <= b
  }

  /** The blocks tile the words from the prologue to the break. */
  ghost predicate Tiled(blk: Blocks, top: int) {
    && PROLOGUE in blk && blk[PROLOGUE] == Block(2, true) && PROLOGUE + 2 <= top
    && (forall a :: a in blk ==> End(blk, a) <= top)
    && (forall a :: a in blk && a != PROLOGUE ==> PROLOGUE + 2 <= a && MINIMUM <= blk[a].n)
    && (forall a {:trigger NextOk(blk, top, a)} :: a in blk ==> NextOk(blk, top, a))
    && Apart(blk)
  }

  /** Every block starts on a doubleword and is a whole number of doublewords. */
  ghost predicate Even(blk: Blocks, top: int) {
    top % 2 == 0 && forall a :: a in blk ==> a % 2 == 0 && blk[a].n % 2 == 0
  }

  /** Header and footer of every block agree with it, and the epilogue header is in place. */
  ghost predicate Tagged(m: seq<Word>, blk: Blocks, top: int) requires Tiled(blk, top) {
    && top <= |m|
    && m[top - 1] == 1
    && (forall a {:trigger blk[a]} :: a in blk ==> m[a - 1] == Tag(blk[a]))
    && (forall a {:trigger blk[a]} :: a in blk ==> m[End(blk, a) - 2] == Tag(blk[a]))
  }

  function HeadOf(free: seq<int>): int { if free == [] then NULL else free[0] }
  function PrevNode(free: seq<int>, i: int): int requires 0 <= i < |free| { if i == 0 then NULL else free[i - 1] }
  function NextNode(free: seq<int>, i: int): int requires 0 <= i < |free| { if i == |free| - 1 then NULL else free[i + 1] }

  predicate LinkAt(m: seq<Word>, free: seq<int>, i: int)
    requires 0 <= i < |free| && 0 <= free[i] < |m| - 1
  {
    m[free[i]] == PrevNode(free, i) && m[free[i] + 1] == NextNode(free, i)
  }

  ghost predicate Nodes(m: seq<Word>, free: seq<int>) {
    && Distinct(free)
    && (forall i :: 0 <= i < |free| ==> 0 < free[i] < |m| - 1 && free[i] % 2 == 0)
  }

  /** free is a doubly linked list through the first two words of its nodes, NULL at both ends. */
  ghost predicate Linked(m: seq<Word>, free: seq<int>) {
    && Nodes(m, free)
    && (forall i {:trigger LinkAt(m, free, i)} :: 0 <= i < |free| ==> LinkAt(m, free, i))
  }

  /** The nodes of the list are the free blocks other than x. */
  ghost predicate ListsFree(blk: Blocks, free: seq<int>, x: int) {
    && (forall f :: f in free ==> f in blk && !blk[f].alloc && f != x)
    && (forall a :: a in blk && !blk[a].alloc && a != x ==> a in free)
  }

  /** A free block is followed by an allocated one, unless one of the two is x. */
  predicate Calm(blk: Blocks, a: int, x: int) requires a in blk {
    !blk[a].alloc && End(blk, a) in blk && a != x && End(blk, a) != x ==> blk[End(blk, a)].alloc
  }

  ghost predicate Coalesced(blk: Blocks, x: int) {
    forall a {:trigger Calm(blk, a, x)} :: a in blk ==> Calm(blk, a, x)
  }

  /** The whole invariant, except that the free block x (if not NULL) is still outside the list and
      may have free neighbours. */
  ghost predicate WellFormedBut(m: seq<Word>, blk: Blocks, top: int, free: seq<int>, x: int) {
    && |m| < 0x2000_0000
    && Tiled(blk, top) && Even(blk, top) && Tagged(m, blk, top)
    && Linked(m, free) && ListsFree(blk, free, x) && Coalesced(blk, x)
  }

  ghost predicate WellFormed(m: seq<Word>, blk: Blocks, top: int, free: seq<int>) {
    WellFormedBut(m, blk, top, free, NULL)
  }

  /** GET_SIZE and GET_ALLOC of a tag word. */
  function GetSize(w: Word): int { w / 8 * 8 }
  function GetAlloc(w: Word): int { w % 2 }

  /** m and w agree except on the two link words of the nodes in F. */
  ghost predicate AgreeOff(m: seq<Word>, w: seq<Word>, F: set<int>) {
    |m| == |w| && forall i :: 0 <= i < |m| && i !in F && i - 1 !in F ==> w[i] == m[i]
  }

  /** The words between the two tags of block b at a. */
  function Payload(m: seq<Word>, a: int, b: Block): seq<Word> {
    if 0 <= a <= a + b.n - 2 <= |m| then m[a .. a + b.n - 2] else []
  }

  /** What clients own: the payload words of every allocated block but the prologue. */
  ghost function Payloads(m: seq<Word>, blk: Blocks): map<int, seq<Word>> {
    map a | a in blk && blk[a].alloc && a != PROLOGUE :: Payload(m, a, blk[a])
  }

  /** The block that ends at a, found from block p onwards. */
  ghost function PrevFrom(blk: Blocks, top: int, a: int, p: int): (r: int)
    requires Tiled(blk, top) && p in blk && p < a && (a in blk || a == top)
    ensures r in blk && End(blk, r) == a
    decreases a - p
  {
    assert NextOk(blk, top, p);
    if End(blk, p) == a then p else PrevFrom(blk, top, a, End(blk, p))
  }

  /** The block below a. */
  ghost function Prev(blk: Blocks, top: int, a: int): (r: int)
    requires Tiled(blk, top) && ((a in blk && a != PROLOGUE) || a == top)
    ensures r in blk && End(blk, r) == a
  {
    PrevFrom(blk, top, a, PROLOGUE)
  }

  function Without(s: seq<int>, x: int): (r: seq<int>)
  {
    if s == [] then [] else if s[0] == x then Without(s[1..], x) else [s[0]] + Without(s[1..], x)
  }

  lemma {:induction false} WithoutProps(s: seq<int>, x: int)
    ensures x !in Without(s, x)
    ensures forall y :: y != x ==> (y in Without(s, x) <==> y in s)
  {
    if s != [] {
      WithoutProps(s[1..], x);
      assert s == [s[0]] + s[1..];
    }
  }

  lemma {:induction false} WithoutAbsent(s: seq<int>, x: int)
    requires x !in s
    ensures Without(s, x) == s
  {
    if s != [] {
      WithoutAbsent(s[1..], x);
    }
  }

  lemma WithoutFront(s: seq<int>, x: int)
    requires x !in s
    ensures Without([x] + s, x) == s
  {
    WithoutAbsent(s, x);
    assert ([x] + s)[1..] == s;
  }

  lemma {:induction false} WithoutAt(s: seq<int>, k: nat)
    requires k < |s| && Distinct(s)
    ensures Without(s, s[k]) == s[..k] + s[k + 1..]
  {
    if k == 0 {
      WithoutAbsent(s[1..], s[0]);
    } else {
      WithoutAt(s[1..], k - 1);
      assert s[1..][..k - 1] == s[1..k];
      assert [s[0]] + s[1..k] == s[..k];
      assert s[1..][k..] == s[k + 1..];
    }
  }
}
