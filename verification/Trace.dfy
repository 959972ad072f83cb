/** Traces of allocator requests, as mdriver.c replays them, and what a client may count on meanwhile. */
module Trace {
  import opened Shape
  import opened ShapeLemmas
  import opened PlaceLemmas
  import opened ReallocLemmas
  import opened Bytes
  import opened Sequences
  import A = Allocator

  datatype Op =
    | Alloc(index: nat, size: nat)
    | Free(index: nat)
    | Realloc(index: nat, size: nat)

  // ---- traces ---------------------------------------------------------------------------------

  /** The requested sizes of the ids that are live after a request. */
  function After(sizes: map<nat, nat>, op: Op): map<nat, nat> {
    if op.Free? then sizes - {op.index} else sizes[op.index := op.size]
  }

  /** The ids that are live after the first n requests, with their sizes. */
  function SizesAfter(ops: seq<Op>, n: nat): map<nat, nat> requires n <= |ops| {
    if n == 0 then map[] else After(SizesAfter(ops, n - 1), ops[n - 1])
  }

  /** Ids are allocated when dead, and freed or reallocated when live; sizes are C ints. */
  predicate OpOk(sizes: map<nat, nat>, op: Op, ids: nat) {
    && op.index < ids
    && (if op.Alloc? then op.index !in sizes else op.index in sizes)
    && (op.Free? || op.size < 0x8000_0000)
  }

  ghost predicate WellFormedTrace(ops: seq<Op>, ids: nat) {
    forall i {:trigger ops[i]} :: 0 <= i < |ops| ==> OpOk(SizesAfter(ops, i), ops[i], ids)
  }

  /** How far a request can push the break. */
  function Demand(op: Op): nat {
    if op.Free? || op.size >= 0x8000_0000 then 0 else A.Allocator.ExtendSize(A.AdjustedSize(op.size))
  }

  function TotalDemand(ops: seq<Op>, n: nat): nat requires n <= |ops| {
    if n == 0 then 16 + A.CHUNKSIZE else TotalDemand(ops, n - 1) + Demand(ops[n - 1])
  }

  lemma {:induction false} DemandGrows(ops: seq<Op>, n: nat, k: nat)
    requires n <= k <= |ops|
    ensures TotalDemand(ops, n) <= TotalDemand(ops, k)
    decreases k
  {
    if n < k { DemandGrows(ops, n, k - 1); }
  }

  lemma AtStart(ops: seq<Op>)
    ensures SizesAfter(ops, 0) == map[] && TotalDemand(ops, 0) == 16 + A.CHUNKSIZE
  {
  }

  lemma EightsAreFours(n: int)
    requires n % 8 == 0
    ensures n % 4 == 0
  {
  }

  lemma DemandIsWords(op: Op)
    ensures Demand(op) % 4 == 0
  {
    hide A.AdjustedSize;
    if !op.Free? && op.size < 0x8000_0000 {
      A.AdjustedHoldsRequest(op.size);
      EightsAreFours(A.AdjustedSize(op.size));
    }
  }

  lemma DemandAdds(ops: seq<Op>, i: nat, top: int)
    requires i < |ops| && 4 * top <= TotalDemand(ops, i)
    ensures 4 * (top + Demand(ops[i]) / 4) <= TotalDemand(ops, i + 1)
  {
    hide Demand;
    DemandIsWords(ops[i]);
  }

  /** Live ids have sizes that are C ints. */
  lemma {:induction false} SizesAreInts(ops: seq<Op>, n: nat, ids: nat, i: nat)
    requires WellFormedTrace(ops, ids) && n <= |ops| && i in SizesAfter(ops, n)
    ensures SizesAfter(ops, n)[i] < 0x8000_0000
  {
    if n > 0 {
      assert OpOk(SizesAfter(ops, n - 1), ops[n - 1], ids);
      if i in SizesAfter(ops, n - 1) { SizesAreInts(ops, n - 1, ids, i); }
    }
  }

  /** The arena holds whatever the trace can ask for. */
  predicate Affordable(ops: seq<Op>) {
    TotalDemand(ops, |ops|) <= 20 * 1048576
  }

  /** No reallocation grows a block by more than one chunk can cover. */
  ghost predicate GrowsSlowly(ops: seq<Op>, ids: nat) requires WellFormedTrace(ops, ids) {
    forall i {:trigger ops[i]} :: 0 <= i < |ops| && ops[i].Realloc? ==>
      ops[i].index in SizesAfter(ops, i) && SizesAfter(ops, i)[ops[i].index] < 0x8000_0000 && ops[i].size < 0x8000_0000
      && A.AdjustedSize(ops[i].size) - A.AdjustedSize(SizesAfter(ops, i)[ops[i].index]) <= A.CHUNKSIZE - 16
  }

  /** The first n requests ask for at least one byte each. */
  ghost predicate Positive(ops: seq<Op>, n: nat) requires n <= |ops| {
    forall i {:trigger ops[i]} :: 0 <= i < n && !ops[i].Free? ==> ops[i].size > 0
  }

  // ---- what the client knows of its blocks ----------------------------------------------------

  /** Pointer and requested size of a live id. */
  datatype Rec = Rec(p: int, size: nat)

  /** The payload was filled with the low byte of the id. */
  ghost predicate Filled(m: seq<Word>, p: int, n: nat, b: byte) {
    0 <= p && 4 * p + n <= 4 * |m| && BytesFrom(m, p, n) == seq(n, _ => b)
  }

  function LowByte(i: nat): byte { i % 256 }

  ghost predicate RecOk(m: seq<Word>, blk: Blocks, i: nat, r: Rec) {
    Live(blk, r.p) && 0 < r.size <= 4 * (blk[r.p].n - 2) && Filled(m, r.p, r.size, LowByte(i))
  }

  ghost predicate Separate(recs: map<nat, Rec>) {
    forall i, j :: i in recs && j in recs && i != j ==> recs[i].p != recs[j].p
  }

  /** The live ids name different live blocks, big enough and filled as the driver left them. */
  ghost predicate RecsOk(m: seq<Word>, blk: Blocks, recs: map<nat, Rec>) {
    Separate(recs) && forall i :: i in recs ==> RecOk(m, blk, i, recs[i])
  }

  lemma FilledKept(m: seq<Word>, u: seq<Word>, p: int, n: nat, big: nat, b: byte)
    requires Filled(m, p, n, b) && KeepsBytes(m, p, u, p, big) && n <= big
    ensures Filled(u, p, n, b)
  {
    KeepsShorter(m, p, u, p, n, big);
  }

  /** Whatever happened to block x, which became block r, the other records still hold. */
  lemma OthersSurvive(m: seq<Word>, blk: Blocks, top: int, free: seq<int>, u: seq<Word>, g: Blocks, top': int, free': seq<int>,
                      recs: map<nat, Rec>, x: int, r: int)
    requires WellFormed(m, blk, top, free) && WellFormed(u, g, top', free') && |m| == |u|
    requires RecsOk(m, blk, recs) && (forall i :: i in recs ==> recs[i].p != x)
    requires Payloads(u, g) - {r} == Payloads(m, blk) - {x}
    ensures RecsOk(u, g, recs) && (forall i :: i in recs ==> recs[i].p != r)
  {
    forall i | i in recs ensures RecOk(u, g, i, recs[i]) && recs[i].p != r {
      RecSurvives(m, blk, top, free, u, g, top', free', i, recs[i], x, r);
    }
  }

  /** A block that was nobody's before joins; the records still hold, and none names it. */
  lemma NewcomerIsFresh(m: seq<Word>, blk: Blocks, top: int, free: seq<int>, u: seq<Word>, g: Blocks, top': int, free': seq<int>,
                        recs: map<nat, Rec>, p: int)
    requires WellFormed(m, blk, top, free) && WellFormed(u, g, top', free') && |m| == |u|
    requires RecsOk(m, blk, recs) && p !in Payloads(m, blk) && Payloads(u, g) - {p} == Payloads(m, blk)
    ensures RecsOk(u, g, recs) && (forall i :: i in recs ==> recs[i].p != p)
  {
    forall i | i in recs ensures recs[i].p != p {
      assert RecOk(m, blk, i, recs[i]);
      OwnedLive(m, blk, recs[i].p);
    }
    hide WellFormedBut, RecsOk, Payloads;
    assert Payloads(m, blk) - {p} == Payloads(m, blk);
    OthersSurvive(m, blk, top, free, u, g, top', free', recs, p, p);
  }

  lemma RecSurvives(m: seq<Word>, blk: Blocks, top: int, free: seq<int>, u: seq<Word>, g: Blocks, top': int, free': seq<int>,
                    i: nat, rec: Rec, x: int, r: int)
    requires WellFormed(m, blk, top, free) && WellFormed(u, g, top', free') && |m| == |u|
    requires RecOk(m, blk, i, rec) && rec.p != x
    requires Payloads(u, g) - {r} == Payloads(m, blk) - {x}
    ensures RecOk(u, g, i, rec) && rec.p != r
  {
    hide WellFormed, Payloads, Filled, KeepsBytes;
    OwnedLive(m, blk, rec.p);
    assert rec.p in Payloads(m, blk) - {x};
    assert rec.p in Payloads(u, g) - {r};
    assert Payloads(u, g)[rec.p] == Payloads(m, blk)[rec.p];
    OwnedKeeps(m, blk, top, free, u, g, top', free', rec.p);
    FilledKept(m, u, rec.p, rec.size, 4 * (blk[rec.p].n - 2), LowByte(i));
  }

  lemma RecordAdded(m: seq<Word>, blk: Blocks, rest: map<nat, Rec>, i: nat, r: Rec)
    requires RecsOk(m, blk, rest) && RecOk(m, blk, i, r) && i !in rest
    requires forall j :: j in rest ==> rest[j].p != r.p
    ensures RecsOk(m, blk, rest[i := r])
  {
  }

  lemma RecordsWithout(m: seq<Word>, blk: Blocks, recs: map<nat, Rec>, i: nat)
    requires RecsOk(m, blk, recs) && i in recs
    ensures RecsOk(m, blk, recs - {i}) && forall j :: j in recs - {i} ==> recs[j].p != recs[i].p
  {
  }

  // ---- the range list -------------------------------------------------------------------------

  /** The extent of a payload, in byte addresses. */
  datatype Range = Range(lo: int, hi: int)

  function RangeOf(r: Rec): Range { Range(4 * r.p, 4 * r.p + r.size - 1) }

  /** The test of add_range: one end of the new payload lies in the old one. */
  predicate EndInside(lo: int, hi: int, r: Range) {
    (r.lo <= lo <= r.hi) || (r.lo <= hi <= r.hi)
  }

  predicate Overlap(lo: int, hi: int, r: Range) { lo <= r.hi && r.lo <= hi }

  /** The test misses exactly the overlaps in which the new payload strictly contains the old one. */
  lemma EndTestMissesContainment(lo: int, hi: int, r: Range)
    requires lo <= hi && r.lo <= r.hi
    ensures EndInside(lo, hi, r) <==> Overlap(lo, hi, r) && !(lo < r.lo && r.hi < hi)
  {
  }

  /** ranges holds the extents of the live ids, each once, in the order ids. */
  ghost predicate RangesOk(ranges: seq<Range>, ids: seq<nat>, recs: map<nat, Rec>) {
    && |ranges| == |ids|
    && (forall k :: 0 <= k < |ids| ==> ids[k] in recs && ranges[k] == RangeOf(recs[ids[k]]))
    && (forall i :: i in recs ==> i in ids)
    && Distinct(ids)
  }

  /** Payloads of different live blocks do not overlap. */
  lemma PayloadsApart(blk: Blocks, top: int, p: int, q: int, n: nat, size: nat)
    requires Tiled(blk, top) && Live(blk, p) && Live(blk, q) && p != q
    requires 0 < n <= 4 * (blk[p].n - 2) && 0 < size <= 4 * (blk[q].n - 2)
    ensures !Overlap(4 * p, 4 * p + n - 1, Range(4 * q, 4 * q + size - 1))
  {
  }

  /** The three tests of add_range pass for a live block that no record names yet. */
  lemma NewRangePasses(m: seq<Word>, blk: Blocks, top: int, free: seq<int>, recs: map<nat, Rec>,
                       ranges: seq<Range>, ids: seq<nat>, p: int, size: nat)
    requires WellFormed(m, blk, top, free) && RecsOk(m, blk, recs) && RangesOk(ranges, ids, recs)
    requires Live(blk, p) && 0 < size <= 4 * (blk[p].n - 2) && forall i :: i in recs ==> recs[i].p != p
    ensures 4 * p % 8 == 0 && 0 <= 4 * p && 4 * p + size - 1 < 4 * top
    ensures forall r :: r in ranges ==> !EndInside(4 * p, 4 * p + size - 1, r)
  {
    ReadTags(m, blk, top, p);
    hide EndInside, RecOk, Linked, Tagged, Even, ListsFree, Coalesced, Tiled;
    forall r | r in ranges ensures !EndInside(4 * p, 4 * p + size - 1, r) {
      var k :| 0 <= k < |ranges| && ranges[k] == r;
    }
  }

  lemma RangeAdded(ranges: seq<Range>, ids: seq<nat>, recs: map<nat, Rec>, i: nat, r: Rec)
    requires RangesOk(ranges, ids, recs) && i !in recs
    ensures RangesOk([RangeOf(r)] + ranges, [i] + ids, recs[i := r])
  {
  }

  lemma RangeRemoved(ranges: seq<Range>, ids: seq<nat>, recs: map<nat, Rec>, k: nat)
    requires RangesOk(ranges, ids, recs) && k < |ids|
    ensures RangesOk(ranges[..k] + ranges[k + 1..], ids[..k] + ids[k + 1..], recs - {ids[k]})
  {
  }

  /** The adjusted size is the least block that can hold the request. */
  lemma AdjustedIsLeast(size: nat, n: nat)
    requires 0 < size <= 4 * (n - 2) && size < 0x8000_0000 && n % 2 == 0 && 4 <= n
    ensures A.AdjustedSize(size) <= 4 * n
  {
  }

  lemma RecLive(m: seq<Word>, blk: Blocks, recs: map<nat, Rec>, i: nat)
    requires RecsOk(m, blk, recs) && i in recs
    ensures RecOk(m, blk, i, recs[i]) && Separate(recs)
  {
  }

  /** The block of a record is at least as large as the adjusted size of its request. */
  lemma RecordFits(m: seq<Word>, blk: Blocks, top: int, free: seq<int>, i: nat, r: Rec)
    requires WellFormed(m, blk, top, free) && RecOk(m, blk, i, r) && r.size < 0x8000_0000
    ensures A.AdjustedSize(r.size) <= 4 * blk[r.p].n
  {
  }

  /** The bytes that a realloc keeps are still filled. */
  lemma FilledMoves(m: seq<Word>, p: int, u: seq<Word>, r: int, have: nat, n: nat, b: byte)
    requires Filled(m, p, have, b) && n <= have && KeepsBytes(m, p, u, r, n)
    ensures Filled(u, r, n, b)
  {
    forall k | 0 <= k < n ensures BytesFrom(u, r, n)[k] == b {
      assert BytesFrom(m, p, have)[k] == b && BytesFrom(m, p, n)[k] == BytesFrom(u, r, n)[k];
    }
  }

  /** The driver's comparison of old data, with a char that may be signed. */
  predicate SeenAs(b: byte, signed: bool) { !(signed && b >= 128) }

  // ---- totals ---------------------------------------------------------------------------------

  /** How a request changes the number of requested bytes that are live. */
  function Delta(sizes: map<nat, nat>, op: Op): int {
    if op.Alloc? then op.size
    else if op.index !in sizes then 0
    else if op.Free? then -sizes[op.index]
    else op.size - sizes[op.index]
  }

  /** The requested bytes that are live after n requests. */
  function TotalAfter(ops: seq<Op>, n: nat): int requires n <= |ops| {
    if n == 0 then 0 else TotalAfter(ops, n - 1) + Delta(SizesAfter(ops, n - 1), ops[n - 1])
  }

  /** n requests never had more bytes live than this, and at some point as many. */
  ghost predicate HighWater(ops: seq<Op>, n: nat, mark: int) requires n <= |ops| {
    && (forall k :: 0 <= k <= n ==> TotalAfter(ops, k) <= mark)
    && (exists k :: 0 <= k <= n && TotalAfter(ops, k) == mark)
  }

  /** A free never sets a new mark. */
  lemma MarkMoves(ops: seq<Op>, n: nat, mark: int)
    requires n < |ops| && HighWater(ops, n, mark)
    ensures HighWater(ops, n + 1, A.Most(mark, TotalAfter(ops, n + 1)))
    ensures ops[n].Free? ==> TotalAfter(ops, n + 1) <= mark
    ensures TotalAfter(ops, n + 1) == TotalAfter(ops, n) + Delta(SizesAfter(ops, n), ops[n])
  {
    assert TotalAfter(ops, n + 1) == TotalAfter(ops, n) + Delta(SizesAfter(ops, n), ops[n]);
    assert TotalAfter(ops, n) <= mark;
    hide TotalAfter, SizesAfter;
  }

  lemma MarkTells(ops: seq<Op>, n: nat, mark: int)
    requires n <= |ops| && HighWater(ops, n, mark)
    ensures forall k :: 0 <= k <= n ==> TotalAfter(ops, k) <= mark
    ensures exists k :: 0 <= k <= n && mark == TotalAfter(ops, k)
  {
    hide TotalAfter;
  }

  lemma MarkStarts(ops: seq<Op>)
    ensures HighWater(ops, 0, 0) && TotalAfter(ops, 0) == 0
  {
    assert TotalAfter(ops, 0) == 0;
  }

  /** The live ids name different live blocks that are big enough. */
  ghost predicate RecsFit(blk: Blocks, recs: map<nat, Rec>) {
    Separate(recs) && forall i :: i in recs ==> Live(blk, recs[i].p) && 0 < recs[i].size <= 4 * (blk[recs[i].p].n - 2)
  }

  lemma FitsSurvive(m: seq<Word>, blk: Blocks, top: int, free: seq<int>, u: seq<Word>, g: Blocks, top': int, free': seq<int>,
                    recs: map<nat, Rec>, x: int, r: int)
    requires WellFormed(m, blk, top, free) && WellFormed(u, g, top', free') && |m| == |u|
    requires RecsFit(blk, recs) && (forall i :: i in recs ==> recs[i].p != x)
    requires Payloads(u, g) - {r} == Payloads(m, blk) - {x}
    ensures RecsFit(g, recs) && (forall i :: i in recs ==> recs[i].p != r)
  {
    hide WellFormedBut, Payloads, KeepsBytes;
    forall i | i in recs ensures Live(g, recs[i].p) && g[recs[i].p] == blk[recs[i].p] && recs[i].p != r {
      var p := recs[i].p;
      OwnedLive(m, blk, p);
      assert p in Payloads(m, blk) - {x};
      assert p in Payloads(u, g) - {r};
      assert Payloads(u, g)[p] == Payloads(m, blk)[p];
      OwnedKeeps(m, blk, top, free, u, g, top', free', p);
    }
  }

  lemma FreshFits(m: seq<Word>, blk: Blocks, top: int, free: seq<int>, u: seq<Word>, g: Blocks, top': int, free': seq<int>,
                  recs: map<nat, Rec>, i: nat, r: Rec)
    requires WellFormed(m, blk, top, free) && WellFormed(u, g, top', free') && |m| == |u|
    requires RecsFit(blk, recs) && r.p !in Payloads(m, blk) && Payloads(u, g) - {r.p} == Payloads(m, blk)
    requires i !in recs && Live(g, r.p) && 0 < r.size <= 4 * (g[r.p].n - 2)
    ensures RecsFit(g, recs[i := r])
  {
    forall j | j in recs ensures recs[j].p != r.p { OwnedLive(m, blk, recs[j].p); }
    hide WellFormedBut, Payloads;
    assert Payloads(m, blk) - {r.p} == Payloads(m, blk);
    FitsSurvive(m, blk, top, free, u, g, top', free', recs, r.p, r.p);
  }

  /** ids lists the live ids, each once. */
  ghost predicate Lists(ids: seq<nat>, recs: map<nat, Rec>) {
    Distinct(ids) && forall i :: i in ids <==> i in recs
  }

  /** The requested bytes of the ids listed. */
  ghost function Requested(recs: map<nat, Rec>, ids: seq<nat>): nat
    requires forall i :: i in ids ==> i in recs
  {
    if ids == [] then 0 else
      var i := ids[0];
      assert i in ids && i in recs;
      recs[i].size + Requested(recs, ids[1..])
  }

  /** Only the sizes of the ids listed matter. */
  lemma {:induction false} RequestedSame(recs: map<nat, Rec>, more: map<nat, Rec>, ids: seq<nat>)
    requires forall i :: i in ids ==> i in recs && i in more && recs[i].size == more[i].size
    ensures Requested(recs, ids) == Requested(more, ids)
  {
    if ids != [] {
      assert ids[0] in ids;
      RequestedSame(recs, more, ids[1..]);
    }
  }

  /** Taking one id out of the list lowers the total by its size. */
  lemma {:induction false} RequestedWithout(recs: map<nat, Rec>, ids: seq<nat>, k: nat)
    requires k < |ids| && forall i :: i in ids ==> i in recs
    ensures forall i :: i in ids[..k] + ids[k + 1..] ==> i in recs
    ensures ids[k] in recs && Requested(recs, ids[..k] + ids[k + 1..]) == Requested(recs, ids) - recs[ids[k]].size
  {
    assert ids[k] in ids;
    forall i | i in ids[..k] + ids[k + 1..] ensures i in recs { assert i in ids; }
    if k == 0 {
      assert ids[..0] + ids[1..] == ids[1..];
    } else {
      RequestedWithout(recs, ids[1..], k - 1);
      assert ids[1..][..k - 1] + ids[1..][k..] == (ids[..k] + ids[k + 1..])[1..];
    }
  }

  /** Changing the size of one id changes the total by the difference. */
  lemma {:induction false} RequestedResized(recs: map<nat, Rec>, ids: seq<nat>, i: nat, r: Rec)
    requires Lists(ids, recs) && i in recs
    ensures Requested(recs[i := r], ids) == Requested(recs, ids) + r.size - recs[i].size
  {
    var k := IndexOf(ids, i);
    var rest := ids[..k] + ids[k + 1..];
    var t := recs[i := r];
    RequestedWithout(recs, ids, k);
    RequestedWithout(t, ids, k);
    forall j | j in rest ensures j in recs && recs[j].size == t[j].size { assert j != i; }
    RequestedSame(recs, t, rest);
  }

  ghost function Interval(a: int, b: int): (s: set<int>)
    ensures forall w :: w in s <==> a <= w < b
    decreases b - a
  {
    if a >= b then {} else Interval(a, b - 1) + {b - 1}
  }

  lemma {:induction false} IntervalSize(a: int, b: int)
    requires a <= b
    ensures |Interval(a, b)| == b - a
    decreases b - a
  {
    if a < b {
      IntervalSize(a, b - 1);
    }
  }

  lemma {:induction false} SubsetSize(s: set<int>, t: set<int>)
    requires s <= t
    ensures |s| <= |t|
  {
    assert t == s + (t - s);
  }

  /** The payload words of the ids listed. */
  ghost function Cells(blk: Blocks, recs: map<nat, Rec>, ids: seq<nat>): set<int>
    requires RecsFit(blk, recs) && forall i :: i in ids ==> i in recs
  {
    if ids == [] then {} else
      var i := ids[0];
      assert i in ids && i in recs;
      Interval(recs[i].p, End(blk, recs[i].p) - 2) + Cells(blk, recs, ids[1..])
  }

  lemma {:induction false} CellsApart(blk: Blocks, top: int, recs: map<nat, Rec>, ids: seq<nat>, i: nat)
    requires Tiled(blk, top) && RecsFit(blk, recs) && (forall j :: j in ids ==> j in recs) && i in recs && i !in ids
    ensures Interval(recs[i].p, End(blk, recs[i].p) - 2) !! Cells(blk, recs, ids)
  {
    if ids != [] {
      var j := ids[0];
      assert j in ids && j in recs && j != i;
      CellsApart(blk, top, recs, ids[1..], i);
      NoneInside(blk, top, recs[i].p, recs[j].p);
      NoneInside(blk, top, recs[j].p, recs[i].p);
    }
  }

  lemma {:induction false} CellsInside(blk: Blocks, top: int, recs: map<nat, Rec>, ids: seq<nat>)
    requires Tiled(blk, top) && RecsFit(blk, recs) && (forall j :: j in ids ==> j in recs)
    ensures Cells(blk, recs, ids) <= Interval(4, top)
  {
    if ids != [] {
      assert ids[0] in ids && ids[0] in recs;
      CellInside(blk, top, recs, ids[0]);
      CellsInside(blk, top, recs, ids[1..]);
      hide RecsFit, Tiled, Interval;
    }
  }

  lemma {:induction false} RequestedFitsCells(blk: Blocks, top: int, recs: map<nat, Rec>, ids: seq<nat>)
    requires Tiled(blk, top) && RecsFit(blk, recs) && (forall j :: j in ids ==> j in recs)
    requires Distinct(ids)
    ensures Requested(recs, ids) <= 4 * |Cells(blk, recs, ids)|
  {
    if ids != [] {
      var i, rest := ids[0], ids[1..];
      assert i in ids && i in recs;
      TailDistinct(ids);
      hide Interval, RecsFit, Tiled, Distinct;
      RequestedFitsCells(blk, top, recs, rest);
      CellsCons(blk, top, recs, i, rest);
    }
  }

  lemma CellsCons(blk: Blocks, top: int, recs: map<nat, Rec>, i: nat, rest: seq<nat>)
    requires Tiled(blk, top) && RecsFit(blk, recs) && (forall j :: j in rest ==> j in recs) && i in recs && i !in rest
    ensures recs[i].size + 4 * |Cells(blk, recs, rest)| <= 4 * |Interval(recs[i].p, End(blk, recs[i].p) - 2) + Cells(blk, recs, rest)|
  {
    hide Interval, RecsFit, Tiled, Cells;
    CellsApart(blk, top, recs, rest, i);
    CellInside(blk, top, recs, i);
    IntervalUnion(recs[i].p, End(blk, recs[i].p) - 2, Cells(blk, recs, rest));
  }

  lemma IntervalUnion(a: int, b: int, s: set<int>)
    requires a <= b && Interval(a, b) !! s
    ensures |Interval(a, b) + s| == b - a + |s|
  {
    hide Interval;
    IntervalSize(a, b);
  }

  lemma CellInside(blk: Blocks, top: int, recs: map<nat, Rec>, i: nat)
    requires Tiled(blk, top) && RecsFit(blk, recs) && i in recs
    ensures Live(blk, recs[i].p) && recs[i].size <= 4 * (blk[recs[i].p].n - 2)
    ensures Interval(recs[i].p, End(blk, recs[i].p) - 2) <= Interval(4, top) && recs[i].p <= End(blk, recs[i].p) - 2
  {
  }

  /** The live requests never add up to more than the heap. */
  lemma RequestedFitsHeap(blk: Blocks, top: int, recs: map<nat, Rec>, ids: seq<nat>)
    requires Tiled(blk, top) && RecsFit(blk, recs) && Lists(ids, recs)
    ensures Requested(recs, ids) <= 4 * top - 16
  {
    RequestedFitsCells(blk, top, recs, ids);
    CellsInside(blk, top, recs, ids);
    SubsetSize(Cells(blk, recs, ids), Interval(4, top));
    IntervalSize(4, top);
  }

  lemma RequestedInHeap(m: seq<Word>, blk: Blocks, top: int, free: seq<int>, recs: map<nat, Rec>, ids: seq<nat>)
    requires WellFormed(m, blk, top, free) && RecsFit(blk, recs) && Lists(ids, recs)
    ensures (forall i :: i in ids ==> i in recs) && Requested(recs, ids) <= 4 * top
  {
    RequestedFitsHeap(blk, top, recs, ids);
  }

  lemma EmptyFits(blk: Blocks, top: int, m: seq<Word>, free: seq<int>)
    requires WellFormed(m, blk, top, free)
    ensures RecsFit(blk, map[]) && Lists([], map[]) && Requested(map[], []) == 0 && 0 <= top
  {
  }

  lemma ListWithout(ids: seq<nat>, recs: map<nat, Rec>, i: nat)
    requires Lists(ids, recs) && i in recs
    ensures var k := IndexOf(ids, i); Lists(ids[..k] + ids[k + 1..], recs - {i})
  {
  }

  lemma FitAdded(g: Blocks, recs: map<nat, Rec>, i: nat, r: Rec)
    requires RecsFit(g, recs - {i}) && (forall j :: j in recs - {i} ==> recs[j].p != r.p)
    requires Live(g, r.p) && 0 < r.size <= 4 * (g[r.p].n - 2)
    ensures RecsFit(g, recs[i := r])
  {
    var t := recs[i := r];
    forall j | j in t && j != i ensures j in recs - {i} && t[j] == (recs - {i})[j] { }
  }

  /** The block of a live id is at least as large as the adjusted size of its request. */
  lemma FitIsLeast(m: seq<Word>, blk: Blocks, top: int, free: seq<int>, recs: map<nat, Rec>, i: nat)
    requires WellFormed(m, blk, top, free) && RecsFit(blk, recs) && i in recs && recs[i].size < 0x8000_0000
    ensures Live(blk, recs[i].p) && A.AdjustedSize(recs[i].size) <= 4 * blk[recs[i].p].n
  {
    ReadTags(m, blk, top, recs[i].p);
    AdjustedIsLeast(recs[i].size, blk[recs[i].p].n);
  }

  lemma FitDropped(g: Blocks, recs: map<nat, Rec>, i: nat)
    requires RecsFit(g, recs) && i in recs
    ensures RecsFit(g, recs - {i}) && (forall j :: j in recs - {i} ==> recs[j].p != recs[i].p)
    ensures Live(g, recs[i].p) && 0 < recs[i].size <= 4 * (g[recs[i].p].n - 2)
  {
  }

  lemma ListSame(ids: seq<nat>, recs: map<nat, Rec>, t: map<nat, Rec>)
    requires Lists(ids, recs) && recs.Keys == t.Keys
    ensures Lists(ids, t)
  {
  }

  lemma ListAdded(ids: seq<nat>, recs: map<nat, Rec>, i: nat, r: Rec)
    requires Lists(ids, recs) && i !in recs
    ensures Lists([i] + ids, recs[i := r])
  {
  }

  lemma TotalAlloc(recs: map<nat, Rec>, more: map<nat, Rec>, ids: seq<nat>, i: nat)
    requires Lists(ids, recs) && Lists([i] + ids, more) && i in more && forall j :: j in recs ==> j in more && more[j] == recs[j]
    ensures Requested(more, [i] + ids) == Requested(recs, ids) + more[i].size
  {
    RequestedSame(recs, more, ids);
    assert ([i] + ids)[1..] == ids;
  }

  lemma TotalRealloc(recs: map<nat, Rec>, next: map<nat, Rec>, ids: seq<nat>, i: nat)
    requires Lists(ids, recs) && i in recs && next.Keys == recs.Keys && forall j :: j in recs && j != i ==> next[j] == recs[j]
    ensures (forall j :: j in ids ==> j in next) && Requested(next, ids) == Requested(recs, ids) + next[i].size - recs[i].size
  {
    RequestedResized(recs, ids, i, next[i]);
    assert next == recs[i := next[i]];
  }

  lemma TotalFree(recs: map<nat, Rec>, ids: seq<nat>, i: nat)
    requires Lists(ids, recs) && i in recs && i in ids
    ensures var k := IndexOf(ids, i); var rest := ids[..k] + ids[k + 1..];
            (forall j :: j in rest ==> j in recs - {i}) && Requested(recs - {i}, rest) == Requested(recs, ids) - recs[i].size
  {
    var k := IndexOf(ids, i);
    var rest := ids[..k] + ids[k + 1..];
    ListWithout(ids, recs, i);
    RequestedWithout(recs, ids, k);
    RequestedSame(recs, recs - {i}, rest);
  }

  lemma OpIsOk(ops: seq<Op>, i: nat, ids: nat)
    requires WellFormedTrace(ops, ids) && i < |ops|
    ensures OpOk(SizesAfter(ops, i), ops[i], ids)
    ensures SizesAfter(ops, i + 1) == After(SizesAfter(ops, i), ops[i])
    ensures ops[i].Realloc? ==> ops[i].index in SizesAfter(ops, i) && SizesAfter(ops, i)[ops[i].index] < 0x8000_0000
  {
    assert OpOk(SizesAfter(ops, i), ops[i], ids);
    if ops[i].Realloc? { SizesAreInts(ops, i, ids, ops[i].index); }
  }
}
