/** mdriver.c: the interpreter that replays a trace on the allocator and checks every answer. */
module Driver {
  import opened Shape
  import opened ShapeLemmas
  import opened CoalesceLemmas
  import opened PlaceLemmas
  import opened ReallocLemmas
  import opened Bytes
  import opened Sequences
  import opened Trace
  import opened MemLib
  import A = Allocator

  /** What stops the replay of a request. */
  datatype Trouble =
    | Fine
    | MallocNull     // "mm_malloc failed."
    | ReallocNull    // "mm_realloc failed."
    | BadRange       // add_range complained: misaligned, outside the heap, or overlapping
    | LostData       // "mm_realloc did not preserve the data from old block"
    | Exited         // mm_realloc called exit
    | WildFree       // mm_realloc freed something that is no block
    | LibcFree       // mm_realloc called free of the C library

  /** A char read as an int: whether char is signed is up to the compiler. */
  function CharValue(b: byte, signed: bool): int { if signed && b >= 128 then b - 256 else b }

  /** The answer of eval_mm_valid: 1, or the error that ended the replay. */
  datatype Verdict = Passed | InitFailed | Stopped(i: nat, t: Trouble)

  /** The records have the sizes that the trace gives. */
  ghost predicate Mirrors(recs: map<nat, Rec>, sizes: map<nat, nat>) {
    recs.Keys == sizes.Keys && forall i :: i in recs ==> recs[i].size == sizes[i]
  }

  lemma StillMirrors(recs: map<nat, Rec>, next: map<nat, Rec>, sizes: map<nat, nat>, op: Op)
    requires Mirrors(recs, sizes)
    requires if op.Free? then next == recs - {op.index} else
               next.Keys == recs.Keys + {op.index} && next[op.index].size == op.size
               && forall i :: i in recs && i != op.index ==> next[i].size == recs[i].size
    ensures Mirrors(next, After(sizes, op))
  {
  }

  /** Every comparison after a realloc can succeed. */
  ghost predicate AllSeen(ops: seq<Op>, n: nat, signed: bool) requires n <= |ops| {
    forall i {:trigger ops[i]} :: 0 <= i < n && ops[i].Realloc? ==> SeenAs(LowByte(ops[i].index), signed)
  }

  /** The answers that mean out of memory. */
  predicate Starved(t: Trouble) { t.MallocNull? || t.ReallocNull? || t.Exited? }

  /** A realloc that asks for more than a chunk beyond the size of its block. */
  predicate Outgrows(sizes: map<nat, nat>, op: Op) {
    && op.Realloc? && op.index in sizes && sizes[op.index] < 0x8000_0000 && op.size < 0x8000_0000
    && A.AdjustedSize(op.size) - A.AdjustedSize(sizes[op.index]) > A.CHUNKSIZE - 16
  }

  /** What a request that ends the replay must have been like. */
  ghost predicate Blames(ops: seq<Op>, signed: bool, i: nat, t: Trouble) {
    && i < |ops|
    && match t
       case Fine => false
       case MallocNull => ops[i].Alloc?
       case ReallocNull => ops[i].Realloc? && ops[i].size > 0
       case BadRange => false
       case LostData => ops[i].Realloc? && !SeenAs(LowByte(ops[i].index), signed)
       case Exited => ops[i].Realloc? && ops[i].size > 0
       case WildFree => Outgrows(SizesAfter(ops, i), ops[i])
       case LibcFree => ops[i].Realloc? && ops[i].size == 0
  }

  /** A trace that the allocator promises to serve while memory lasts: well-formed, of at least one byte each,
      and with no realloc that grows by more than a chunk covers. */
  ghost predicate Promised(ops: seq<Op>, ids: nat) {
    WellFormedTrace(ops, ids) && GrowsSlowly(ops, ids) && Positive(ops, |ops|)
  }

  /** On such a trace a request fails for want of memory, or for the comparison of signed chars. */
  lemma OnlyMemoryOrSigns(ops: seq<Op>, ids: nat, signed: bool, i: nat, t: Trouble)
    requires Promised(ops, ids) && Blames(ops, signed, i, t)
    ensures !ops[i].Free? && ops[i].size > 0
    ensures Starved(t) || (t == LostData && signed && ops[i].Realloc? && ops[i].index % 256 >= 128 && !AllSeen(ops, |ops|, signed))
  {
    hide A.AdjustedSize, WellFormedTrace;
  }

  lemma PromisedIsModest(ops: seq<Op>, ids: nat, i: nat)
    requires Promised(ops, ids) && i < |ops|
    ensures !Outgrows(SizesAfter(ops, i), ops[i]) && (!ops[i].Free? ==> ops[i].size > 0)
  {
    hide A.AdjustedSize, WellFormedTrace;
  }

  /** A request whose demand is within the budget of an affordable trace is not refused. */
  lemma AffordableIsServed(ops: seq<Op>, i: nat, top: int)
    requires Affordable(ops) && i < |ops| && !ops[i].Free? && 4 * top <= TotalDemand(ops, i)
    ensures !A.Refused(top, Demand(ops[i]) / 4)
  {
    hide Demand;
    DemandGrows(ops, i + 1, |ops|);
    DemandAdds(ops, i, top);
    DemandIsWords(ops[i]);
  }

  class Driver {
    const mm: A.Allocator
    const blocks: array<int>       // trace->blocks
    const blockSizes: array<int>   // trace->block_sizes
    var ranges: seq<Range>
    ghost var recs: map<nat, Rec>
    ghost var ids: seq<nat>

    constructor (m: A.Allocator, numIds: nat)
      ensures mm == m && blocks.Length == blockSizes.Length == numIds && fresh(blocks) && fresh(blockSizes) && blocks != blockSizes
    {
      mm := m;
      var b := new int[numIds];
      var s := new int[numIds];
      blocks, blockSizes := b, s;
      ranges, recs, ids := [], map[], [];
    }

    ghost predicate Distinguished() reads this {
      && blocks != blockSizes && blocks.Length == blockSizes.Length
      && (mm.lib.arena as object) !in {blocks as object, blockSizes as object}
    }

    /** The arrays of the trace say what the records say. */
    ghost predicate Remembered() reads this, blocks, blockSizes {
      && blocks.Length == blockSizes.Length
      && forall i :: i in recs ==> i < blocks.Length && blocks[i] == recs[i].p && blockSizes[i] == recs[i].size
    }

    /** Between two requests: allocator, records, ranges and arrays agree. */
    ghost predicate Holding() reads this, mm, mm.lib, mm.lib.arena, blocks, blockSizes {
      && Distinguished() && mm.Valid() && Remembered()
      && RecsOk(mm.lib.arena[..], mm.blk, recs) && RangesOk(ranges, ids, recs)
    }

    // ---- the range list -----------------------------------------------------------------------

    /** Accepts a payload that is aligned, inside the heap, and has neither end in a known range. */
    method AddRange(lo: int, size: int) returns (ok: bool)
      requires size > 0
      modifies this`ranges
      ensures ok <==> lo % 8 == 0 && 0 <= lo && lo + size - 1 < mm.lib.brk
                      && forall r :: r in old(ranges) ==> !EndInside(lo, lo + size - 1, r)
      ensures ranges == if ok then [Range(lo, lo + size - 1)] + old(ranges) else old(ranges)
    {
      var hi := lo + size - 1;
      if lo % 8 != 0 {
        return false;
      }
      if lo < 0 || lo > mm.lib.brk - 1 || hi < 0 || hi > mm.lib.brk - 1 {
        return false;
      }
      var k := 0;
      while k < |ranges|
        invariant 0 <= k <= |ranges| && ranges == old(ranges)
        invariant forall j :: 0 <= j < k ==> !EndInside(lo, hi, ranges[j])
      {
        if (lo >= ranges[k].lo && lo <= ranges[k].hi) || (hi >= ranges[k].lo && hi <= ranges[k].hi) {
          assert ranges[k] in ranges && EndInside(lo, hi, ranges[k]);
          return false;
        }
        k := k + 1;
      }
      ranges := [Range(lo, hi)] + ranges;
      return true;
    }

    /** Drops the first range that starts at lo. */
    method RemoveRange(lo: int)
      modifies this`ranges
      ensures (forall r :: r in old(ranges) ==> r.lo != lo) ==> ranges == old(ranges)
      ensures forall k :: 0 <= k < |old(ranges)| && old(ranges)[k].lo == lo && (forall j :: 0 <= j < k ==> old(ranges)[j].lo != lo)
                ==> ranges == old(ranges)[..k] + old(ranges)[k + 1..]
    {
      var k := 0;
      while k < |ranges|
        invariant 0 <= k <= |ranges| && ranges == old(ranges)
        invariant forall j :: 0 <= j < k ==> ranges[j].lo != lo
      {
        if ranges[k].lo == lo {
          ranges := ranges[..k] + ranges[k + 1..];
          return;
        }
        k := k + 1;
      }
    }

    method ClearRanges()
      modifies this`ranges
      ensures ranges == []
    {
      ranges := [];
    }

    // ---- one request --------------------------------------------------------------------------

    /** memset of a payload. */
    method Fill(p: int, b: byte, size: nat, ghost rest: map<nat, Rec>)
      requires mm.Valid() && Live(mm.blk, p) && 0 < size <= 4 * (mm.blk[p].n - 2)
      requires RecsOk(mm.lib.arena[..], mm.blk, rest) && forall i :: i in rest ==> rest[i].p != p
      modifies mm.lib.arena
      ensures mm.Valid() && RecsOk(mm.lib.arena[..], mm.blk, rest) && Filled(mm.lib.arena[..], p, size, b)
    {
      hide Tiled, Even, Tagged, Linked, ListsFree, Coalesced, Payloads, RecsOk, ByteAt;
      ghost var m: seq<Word> := mm.lib.arena[..];
      ReadTags(m, mm.blk, mm.top, p);
      Memset(mm.lib.arena, 4 * p, b, size);
      ghost var w: seq<Word> := mm.lib.arena[..];
      WritePayload(m, w, mm.blk, mm.top, mm.free, p);
      OthersSurvive(m, mm.blk, mm.top, mm.free, w, mm.blk, mm.top, mm.free, rest, p, p);
      assert BytesFrom(w, p, size) == seq(size, _ => b);
    }

    /** Fills block p and remembers it for id index. */
    method Remember(index: nat, p: int, size: nat, ghost rest: map<nat, Rec>)
      requires Distinguished() && mm.Valid() && index < blocks.Length
      requires Live(mm.blk, p) && 0 < size <= 4 * (mm.blk[p].n - 2)
      requires RecsOk(mm.lib.arena[..], mm.blk, rest) && index !in rest && RangesOk(ranges, ids, rest[index := Rec(p, size)])
      requires forall i :: i in rest ==> rest[i].p != p && i < blocks.Length && blocks[i] == rest[i].p && blockSizes[i] == rest[i].size
      modifies this`recs, blocks, blockSizes, mm.lib.arena
      ensures Holding() && recs == rest[index := Rec(p, size)]
    {
      hide WellFormedBut, RecsOk, RangesOk, Filled;
      Fill(p, LowByte(index), size, rest);
      RecordAdded(mm.lib.arena[..], mm.blk, rest, index, Rec(p, size));
      blocks[index] := p;
      blockSizes[index] := size;
      recs := rest[index := Rec(p, size)];
    }

    /** case ALLOC. */
    method DoAlloc(index: nat, size: nat) returns (t: Trouble)
      requires Holding() && index < blocks.Length && index !in recs && size < 0x8000_0000
      modifies this, mm, mm.lib, mm.lib.arena, blocks, blockSizes
      ensures t == Fine || t == MallocNull
      ensures t == MallocNull ==> mm.top == old(mm.top) && (size == 0 || A.Refused(mm.top, Demand(Alloc(index, size)) / 4))
      ensures mm.lib.refusals == old(mm.lib.refusals) + if t == MallocNull && size > 0 then 1 else 0
      ensures t == Fine ==> Holding() && size > 0 && recs.Keys == old(recs).Keys + {index}
                            && recs[index].size == size && (forall i :: i in old(recs) ==> recs[i].size == old(recs)[i].size)
      ensures mm.top <= old(mm.top) + Demand(Alloc(index, size)) / 4
    {
      hide WellFormedBut, RecsOk, RangesOk, EndInside, A.AdjustedSize, A.Refused, Payloads, CutTo, FreeTail,
           OthersStay, Placed, PlacedList, FirstFit;
      ghost var m, blk, top, free: seq<int> := mm.lib.arena[..], mm.blk, mm.top, mm.free;
      var p := mm.MmMalloc(size);
      if p == NULL {
        return MallocNull;
      }
      NewcomerIsFresh(m, blk, top, free, mm.lib.arena[..], mm.blk, mm.top, mm.free, recs, p);
      NewRangePasses(mm.lib.arena[..], mm.blk, mm.top, mm.free, recs, ranges, ids, p, size);
      RangeAdded(ranges, ids, recs, index, Rec(p, size));
      var ok := AddRange(4 * p, size);
      if !ok {
        return BadRange;
      }
      ids := [index] + ids;
      Remember(index, p, size, recs);
      return Fine;
    }

    /** case FREE. */
    method DoFree(index: nat)
      requires Holding() && index in recs
      modifies this, mm, mm.lib, mm.lib.arena
      ensures Holding() && recs == old(recs) - {index} && mm.top == old(mm.top) && mm.lib.refusals == old(mm.lib.refusals)
    {
      hide WellFormedBut, RecsOk, RangesOk, Merged, MergedList;
      ghost var m, blk, top, free: seq<int> := mm.lib.arena[..], mm.blk, mm.top, mm.free;
      var p := blocks[index];
      RecLive(m, blk, recs, index);
      RecordsWithout(m, blk, recs, index);
      DropRange(index, p);
      mm.MmFree(p);
      OthersSurvive(m, blk, top, free, mm.lib.arena[..], mm.blk, mm.top, mm.free, recs - {index}, p, p);
      recs := recs - {index};
    }

    /** The range of id index leaves the list; the ghost order of ids follows. */
    method DropRange(index: nat, p: int)
      requires RangesOk(ranges, ids, recs) && Separate(recs) && index in recs && recs[index].p == p
      modifies this`ranges, this`ids
      ensures RangesOk(ranges, ids, recs - {index})
    {
      ghost var k := IndexOf(ids, index);
      forall j | 0 <= j < k ensures ranges[j].lo != ranges[k].lo { }
      RangeRemoved(ranges, ids, recs, k);
      RemoveRange(4 * p);
      ids := ids[..k] + ids[k + 1..];
    }

    /** The byte-by-byte comparison after a realloc: with signed chars it fails exactly for the ids whose
        low byte is 128 or more. */
    method Compare(p: int, n: nat, index: nat, signed: bool) returns (same: bool)
      requires Filled(mm.lib.arena[..], p, n, LowByte(index))
      ensures same <==> n == 0 || SeenAs(LowByte(index), signed)
    {
      ghost var m: seq<Word> := mm.lib.arena[..];
      assert forall k :: 0 <= k < n ==> BytesFrom(m, p, n)[k] == LowByte(index);
      hide ByteOf;
      var j := 0;
      while j < n
        invariant 0 <= j <= n && (j > 0 ==> SeenAs(LowByte(index), signed))
      {
        assert BytesFrom(m, p, n)[j] == LowByte(index);
        assert ByteAt(m, 4 * p + j) == LowByte(index);
        if CharValue(ByteOf(mm.lib.arena[(4 * p + j) / 4], (4 * p + j) % 4), signed) != index % 256 {
          return false;
        }
        j := j + 1;
      }
      return true;
    }

    /** case REALLOC: the range of the old block leaves the list, and that of the new one joins it. */
    method SwapRange(index: nat, oldp: int, newp: int, size: nat,
                     ghost m: seq<Word>, ghost blk: Blocks, ghost top: int, ghost free: seq<int>) returns (ok: bool)
      requires mm.Valid() && index in recs && recs[index].p == oldp && size > 0
      requires |m| == mm.lib.arena.Length && WellFormed(m, blk, top, free) && RecsOk(m, blk, recs) && RangesOk(ranges, ids, recs)
      requires Live(mm.blk, newp) && size <= 4 * (mm.blk[newp].n - 2)
      requires Payloads(mm.lib.arena[..], mm.blk) - {newp} == Payloads(m, blk) - {oldp}
      modifies this`ranges, this`ids
      ensures ok && RecsOk(mm.lib.arena[..], mm.blk, recs - {index}) && (forall i :: i in recs - {index} ==> recs[i].p != newp)
      ensures RangesOk(ranges, ids, (recs - {index})[index := Rec(newp, size)])
    {
      hide WellFormedBut, RecsOk, RangesOk, EndInside, Filled, KeepsBytes, Payloads, Separate;
      RecLive(m, blk, recs, index);
      RecordsWithout(m, blk, recs, index);
      ghost var u: seq<Word>, rest := mm.lib.arena[..], recs - {index};
      OthersSurvive(m, blk, top, free, u, mm.blk, mm.top, mm.free, rest, oldp, newp);
      DropRange(index, oldp);
      NewRangePasses(u, mm.blk, mm.top, mm.free, rest, ranges, ids, newp, size);
      RangeAdded(ranges, ids, rest, index, Rec(newp, size));
      ok := AddRange(4 * newp, size);
      ids := [index] + ids;
    }

    /** case REALLOC, after mm_realloc has answered. */
    method AfterRealloc(index: nat, oldp: int, newp: int, size: nat, signed: bool,
                        ghost m: seq<Word>, ghost blk: Blocks, ghost top: int, ghost free: seq<int>) returns (t: Trouble)
      requires Distinguished() && mm.Valid() && Remembered() && index in recs && recs[index].p == oldp && size > 0
      requires |m| == mm.lib.arena.Length && WellFormed(m, blk, top, free) && RecsOk(m, blk, recs) && RangesOk(ranges, ids, recs)
      requires Live(mm.blk, newp) && size <= 4 * (mm.blk[newp].n - 2) && Live(blk, oldp) && 2 <= blk[oldp].n
      requires Payloads(mm.lib.arena[..], mm.blk) - {newp} == Payloads(m, blk) - {oldp}
      requires KeepsBytes(m, oldp, mm.lib.arena[..], newp, A.Least(size, 4 * blk[oldp].n - 8))
      modifies this, mm.lib.arena, blocks, blockSizes
      ensures t == Fine || t == LostData
      ensures t == LostData ==> !SeenAs(LowByte(index), signed)
      ensures t == Fine ==> SeenAs(LowByte(index), signed) && Holding() && recs == old(recs)[index := Rec(newp, size)]
    {
      hide WellFormedBut, RecsOk, RangesOk, EndInside, Filled, KeepsBytes, Payloads, Separate, LowByte, SeenAs;
      RecLive(m, blk, recs, index);
      ghost var rest, old0 := recs - {index}, recs[index];
      var ok := SwapRange(index, oldp, newp, size, m, blk, top, free);
      if !ok {
        return BadRange;
      }
      var oldsize := blockSizes[index];
      if size < oldsize {
        oldsize := size;
      }
      KeepsShorter(m, oldp, mm.lib.arena[..], newp, oldsize, A.Least(size, 4 * blk[oldp].n - 8));
      FilledMoves(m, oldp, mm.lib.arena[..], newp, old0.size, oldsize, LowByte(index));
      var same := Compare(newp, oldsize, index, signed);
      if !same {
        return LostData;
      }
      assert rest[index := Rec(newp, size)] == recs[index := Rec(newp, size)];
      Remember(index, newp, size, rest);
      return Fine;
    }

    /** case REALLOC. */
    method DoRealloc(index: nat, size: nat, signed: bool) returns (t: Trouble)
      requires Holding() && index in recs && size < 0x8000_0000 && recs[index].size < 0x8000_0000
      modifies this, mm, mm.lib, mm.lib.arena, blocks, blockSizes
      ensures t != MallocNull && t != BadRange && (t == LibcFree <==> size == 0)
      ensures Starved(t) ==> mm.top == old(mm.top) && A.Refused(mm.top, Demand(Realloc(index, size)) / 4)
      ensures mm.lib.refusals == old(mm.lib.refusals) + if Starved(t) then 1 else 0
      ensures t == WildFree ==> A.AdjustedSize(size) - A.AdjustedSize(old(recs)[index].size) > A.CHUNKSIZE - 16
      ensures t == LostData ==> !SeenAs(LowByte(index), signed)
      ensures t == Fine ==> SeenAs(LowByte(index), signed) && Holding() && recs.Keys == old(recs).Keys
                            && recs[index].size == size && (forall i :: i in recs && i != index ==> recs[i].size == old(recs)[i].size)
      ensures mm.top <= old(mm.top) + Demand(Realloc(index, size)) / 4
    {
      hide WellFormedBut, RecsOk, RangesOk, EndInside, A.AdjustedSize, Filled, KeepsBytes, Payloads,
           A.GrowBranch, A.MoveBranch, A.NeighboursSuffice, A.TakesIn, CutTo, FreeTail, OthersStay, FirstFit;
      ghost var m, blk, top, free: seq<int> := mm.lib.arena[..], mm.blk, mm.top, mm.free;
      var oldp := blocks[index];
      RecLive(m, blk, recs, index);
      RecordFits(m, blk, top, free, index, recs[index]);
      var o := mm.MmRealloc(oldp, size);
      if !o.Returned? || o.p == NULL {
        return match o case Returned(_) => ReallocNull case Exits => Exited case CallsLibcFree => LibcFree case BadFree(_) => WildFree;
      }
      t := AfterRealloc(index, oldp, o.p, size, signed, m, blk, top, free);
    }

    // ---- eval_mm_valid ------------------------------------------------------------------------

    /** One round of the loop. */
    method Replay(ops: seq<Op>, i: nat, signed: bool) returns (t: Trouble)
      requires WellFormedTrace(ops, blocks.Length) && i < |ops| && Holding() && Mirrors(recs, SizesAfter(ops, i))
      requires 4 * mm.top <= TotalDemand(ops, i)
      modifies this, mm, mm.lib, mm.lib.arena, blocks, blockSizes
      ensures t != Fine ==> Blames(ops, signed, i, t)
      ensures Starved(t) ==> mm.top == old(mm.top) && (ops[i].size == 0 || A.Refused(mm.top, Demand(ops[i]) / 4))
      ensures mm.lib.refusals == old(mm.lib.refusals) + if Starved(t) && ops[i].size > 0 then 1 else 0
      ensures t == Fine ==> Holding() && Mirrors(recs, SizesAfter(ops, i + 1)) && 4 * mm.top <= TotalDemand(ops, i + 1)
      ensures t == Fine ==> (ops[i].Free? || ops[i].size > 0) && (ops[i].Realloc? ==> SeenAs(LowByte(ops[i].index), signed))
    {
      hide Holding, SeenAs, LowByte, A.AdjustedSize, A.Allocator.ExtendSize;
      var op := ops[i];
      ghost var sizes, top := SizesAfter(ops, i), mm.top;
      assert OpOk(sizes, op, blocks.Length);
      DemandAdds(ops, i, top);
      match op {
        case Alloc(index, size) =>
          t := DoAlloc(index, size);
        case Realloc(index, size) =>
          SizesAreInts(ops, i, blocks.Length, index);
          t := DoRealloc(index, size, signed);
        case Free(index) =>
          DoFree(index);
          t := Fine;
      }
    }

    /** The heap is reset and initialized, and the range list cleared. */
    method Start() returns (r: int)
      requires Distinguished() && mm.lib.Valid()
      modifies this, mm, mm.lib, mm.lib.arena
      ensures r >= 0 && mm.lib.refusals == old(mm.lib.refusals)
      ensures Holding() && recs == map[] && 4 * mm.top == 16 + A.CHUNKSIZE && Mirrors(recs, map[])
    {
      hide WellFormedBut;
      mm.lib.MemResetBrk();
      ClearRanges();
      r := mm.MmInit();
      recs, ids := map[], [];
    }

    /** Replaying a well-formed trace never meets a misplaced or overlapping block.  What can end it is a
        request of no bytes, a refusal of mem_sbrk, a realloc that grows by more than a chunk covers, or the
        driver's own comparison of signed chars.  A promised trace passes exactly if every comparison can
        succeed and mem_sbrk never refuses; and it never does if the arena holds a chunk for each request. */
    method EvalMmValid(ops: seq<Op>, signed: bool) returns (v: Verdict)
      requires Distinguished() && mm.lib.Valid() && WellFormedTrace(ops, blocks.Length)
      modifies this, mm, mm.lib, mm.lib.arena, blocks, blockSizes
      ensures v != InitFailed
      ensures v.Stopped? ==> Blames(ops, signed, v.i, v.t)
      ensures v.Stopped? && Starved(v.t) && ops[v.i].size > 0 ==> A.Refused(mm.top, Demand(ops[v.i]) / 4)
      ensures mm.lib.refusals == old(mm.lib.refusals) + if v.Stopped? && Starved(v.t) && ops[v.i].size > 0 then 1 else 0
      ensures v == Passed ==> Positive(ops, |ops|) && AllSeen(ops, |ops|, signed)
      ensures v == Passed ==> Holding() && Mirrors(recs, SizesAfter(ops, |ops|))
      ensures Promised(ops, blocks.Length) ==>
                (v == Passed <==> AllSeen(ops, |ops|, signed) && mm.lib.refusals == old(mm.lib.refusals))
      ensures Promised(ops, blocks.Length) && Affordable(ops) ==> mm.lib.refusals == old(mm.lib.refusals)
    {
      hide Promised, Holding, Mirrors, WellFormedTrace, Blames, SizesAfter, TotalDemand, SeenAs;
      assert SizesAfter(ops, 0) == map[] && TotalDemand(ops, 0) == 16 + A.CHUNKSIZE by { AtStart(ops); }
      var r := Start();
      if r < 0 {
        return InitFailed;
      }
      var i := 0;
      while i < |ops|
        invariant 0 <= i <= |ops| && Holding() && Mirrors(recs, SizesAfter(ops, i)) && 4 * mm.top <= TotalDemand(ops, i)
        invariant Positive(ops, i) && AllSeen(ops, i, signed) && mm.lib.refusals == old(mm.lib.refusals)
      {
        ghost var top := mm.top;
        var t := Replay(ops, i, signed);
        if t != Fine {
          if Promised(ops, blocks.Length) {
            OnlyMemoryOrSigns(ops, blocks.Length, signed, i, t);
            if Affordable(ops) { AffordableIsServed(ops, i, top); }
          }
          return Stopped(i, t);
        }
        i := i + 1;
      }
      return Passed;
    }

    // ---- eval_mm_util -------------------------------------------------------------------------

    /** Between two requests of the utilization run: no ranges are kept and nothing is filled. */
    ghost predicate Counting() reads this, mm, mm.lib, mm.lib.arena, blocks, blockSizes {
      Distinguished() && mm.Valid() && Remembered() && RecsFit(mm.blk, recs) && Lists(ids, recs)
    }

    /** What mem_heapsize answers. */
    function HeapSize(): int reads mm.lib { mm.lib.brk }

    /** case ALLOC: the total grows by the request. */
    method CountAlloc(index: nat, size: nat) returns (ok: bool)
      requires Counting() && index < blocks.Length && index !in recs && size < 0x8000_0000
      modifies this, mm, mm.lib, mm.lib.arena, blocks, blockSizes
      ensures old(mm.top) <= mm.top <= old(mm.top) + Demand(Alloc(index, size)) / 4
      ensures mm.lib.refusals == old(mm.lib.refusals) + if !ok && size > 0 then 1 else 0
      ensures !ok && size > 0 ==> mm.top == old(mm.top) && A.Refused(mm.top, Demand(Alloc(index, size)) / 4)
      ensures ok ==> Counting() && recs.Keys == old(recs).Keys + {index} && recs[index].size == size
                     && (forall i :: i in old(recs) ==> recs[i] == old(recs)[i]) && ids == [index] + old(ids)
    {
      hide WellFormedBut, Payloads, RecsFit, Lists, A.AdjustedSize, A.Refused, CutTo, FreeTail, OthersStay,
           Placed, PlacedList, FirstFit;
      ghost var m, blk, top, free: seq<int> := mm.lib.arena[..], mm.blk, mm.top, mm.free;
      var p := mm.MmMalloc(size);
      if p == NULL {
        return false;
      }
      FreshFits(m, blk, top, free, mm.lib.arena[..], mm.blk, mm.top, mm.free, recs, index, Rec(p, size));
      ListAdded(ids, recs, index, Rec(p, size));
      blocks[index] := p;
      blockSizes[index] := size;
      recs := recs[index := Rec(p, size)];
      ids := [index] + ids;
      return true;
    }

    /** The new block is remembered. */
    method Recount(index: nat, p: int, newsize: nat)
      requires Distinguished() && mm.Valid() && Remembered() && Lists(ids, recs) && index in recs
      requires RecsFit(mm.blk, recs - {index}) && (forall j :: j in recs - {index} ==> recs[j].p != p)
      requires Live(mm.blk, p) && 0 < newsize <= 4 * (mm.blk[p].n - 2)
      modifies this`recs, blocks, blockSizes
      ensures Counting() && recs == old(recs)[index := Rec(p, newsize)]
    {
      hide WellFormedBut, RecsFit, Lists;
      FitAdded(mm.blk, recs, index, Rec(p, newsize));
      ListSame(ids, recs, recs[index := Rec(p, newsize)]);
      blocks[index] := p;
      blockSizes[index] := newsize;
      recs := recs[index := Rec(p, newsize)];
    }

    /** case REALLOC: the total changes by the difference. */
    method CountRealloc(index: nat, newsize: nat) returns (ok: bool)
      requires Counting() && index in recs && newsize < 0x8000_0000 && recs[index].size < 0x8000_0000
      modifies this, mm, mm.lib, mm.lib.arena, blocks, blockSizes
      ensures old(mm.top) <= mm.top <= old(mm.top) + Demand(Realloc(index, newsize)) / 4 && ids == old(ids)
      ensures ok ==> mm.lib.refusals == old(mm.lib.refusals)
      ensures !ok && newsize > 0 && A.AdjustedSize(newsize) - A.AdjustedSize(old(recs)[index].size) <= A.CHUNKSIZE - 16 ==>
                mm.lib.refusals == old(mm.lib.refusals) + 1
                && mm.top == old(mm.top) && A.Refused(mm.top, Demand(Realloc(index, newsize)) / 4)
      ensures ok ==> Counting() && recs.Keys == old(recs).Keys && recs[index].size == newsize
                     && (forall i :: i in recs && i != index ==> recs[i] == old(recs)[i])
    {
      hide WellFormedBut, Payloads, KeepsBytes, RecsFit, A.AdjustedSize, Lists, A.GrowBranch, A.MoveBranch,
           A.NeighboursSuffice, A.TakesIn, CutTo, FreeTail, OthersStay, FirstFit;
      ghost var m, blk, top, free: seq<int> := mm.lib.arena[..], mm.blk, mm.top, mm.free;
      var oldp := blocks[index];
      FitDropped(blk, recs, index);
      FitIsLeast(m, blk, top, free, recs, index);
      var o := mm.MmRealloc(oldp, newsize);
      if !o.Returned? || o.p == NULL {
        return false;
      }
      FitsSurvive(m, blk, top, free, mm.lib.arena[..], mm.blk, mm.top, mm.free, recs - {index}, oldp, o.p);
      Recount(index, o.p, newsize);
      return true;
    }

    /** case FREE: the total shrinks by the size of the block. */
    method CountFree(index: nat)
      requires Counting() && index in recs
      modifies this, mm, mm.lib, mm.lib.arena
      ensures Counting() && recs == old(recs) - {index} && mm.top == old(mm.top) && mm.lib.refusals == old(mm.lib.refusals)
      ensures index in old(ids) && ids == old(ids)[..IndexOf(old(ids), index)] + old(ids)[IndexOf(old(ids), index) + 1..]
    {
      hide WellFormedBut, Payloads, Merged, MergedList, RecsFit, Lists;
      ghost var m, blk, top, free: seq<int> := mm.lib.arena[..], mm.blk, mm.top, mm.free;
      var p := blocks[index];
      FitDropped(blk, recs, index);
      mm.MmFree(p);
      FitsSurvive(m, blk, top, free, mm.lib.arena[..], mm.blk, mm.top, mm.free, recs - {index}, p, p);
      ListWithout(ids, recs, index);
      ids := ids[..IndexOf(ids, index)] + ids[IndexOf(ids, index) + 1..];
      recs := recs - {index};
    }

    /** mem_sbrk has refused the request. */
    ghost predicate RefusedIn(op: Op, before: nat, top: int) reads this, mm, mm.lib {
      mm.lib.refusals == before + 1 && A.Refused(top, Demand(op) / 4)
    }

    /** A request has been counted: total is again the sum of the live requests, or it has failed. */
    twostate predicate Tallied(op: Op, sizes: map<nat, nat>, total0: int, ok: bool, total: int)
      reads this, mm, mm.lib, mm.lib.arena, blocks, blockSizes
    {
      && old(mm.top) <= mm.top <= old(mm.top) + Demand(op) / 4
      && (ok ==> mm.lib.refusals == old(mm.lib.refusals))
      && (!ok ==> !op.Free? && (op.size == 0 || Outgrows(sizes, op) || RefusedIn(op, old(mm.lib.refusals), old(mm.top))))
      && (ok ==> Counting() && (forall i :: i in ids ==> i in recs) && total == Requested(recs, ids))
      && (ok ==> Mirrors(recs, After(sizes, op)) && total == total0 + Delta(sizes, op))
    }

    method TallyAlloc(index: nat, size: nat, total0: int, ghost sizes: map<nat, nat>) returns (ok: bool, total: int)
      requires Counting() && Mirrors(recs, sizes) && OpOk(sizes, Alloc(index, size), blocks.Length)
      requires (forall i :: i in ids ==> i in recs) && total0 == Requested(recs, ids)
      modifies this, mm, mm.lib, mm.lib.arena, blocks, blockSizes
      ensures Tallied(Alloc(index, size), sizes, total0, ok, total)
    {
      hide WellFormedBut, RecsFit, A.Allocator.ValidBut, A.Allocator.Valid, Lists, Requested, A.AdjustedSize, A.Refused, Demand;
      ghost var recs0, ids0 := recs, ids;
      ok := CountAlloc(index, size);
      total := total0 + size;
      if ok {
        TotalAlloc(recs0, recs, ids0, index);
        StillMirrors(recs0, recs, sizes, Alloc(index, size));
      }
    }

    method TallyRealloc(index: nat, newsize: nat, total0: int, ghost sizes: map<nat, nat>) returns (ok: bool, total: int)
      requires Counting() && Mirrors(recs, sizes) && OpOk(sizes, Realloc(index, newsize), blocks.Length) && sizes[index] < 0x8000_0000
      requires (forall i :: i in ids ==> i in recs) && total0 == Requested(recs, ids)
      modifies this, mm, mm.lib, mm.lib.arena, blocks, blockSizes
      ensures Tallied(Realloc(index, newsize), sizes, total0, ok, total)
    {
      hide WellFormedBut, RecsFit, A.Allocator.ValidBut, A.Allocator.Valid, Lists, Requested, A.AdjustedSize, A.Refused, Demand;
      ghost var recs0, ids0 := recs, ids;
      var oldsize := blockSizes[index];
      ok := CountRealloc(index, newsize);
      total := total0 + (newsize - oldsize);
      if ok {
        TotalRealloc(recs0, recs, ids0, index);
        StillMirrors(recs0, recs, sizes, Realloc(index, newsize));
      }
    }

    method TallyFree(index: nat, total0: int, ghost sizes: map<nat, nat>) returns (total: int)
      requires Counting() && Mirrors(recs, sizes) && OpOk(sizes, Free(index), blocks.Length)
      requires (forall i :: i in ids ==> i in recs) && total0 == Requested(recs, ids)
      modifies this, mm, mm.lib, mm.lib.arena, blocks, blockSizes
      ensures Tallied(Free(index), sizes, total0, true, total)
    {
      hide WellFormedBut, RecsFit, A.Allocator.ValidBut, A.Allocator.Valid, Lists, Requested;
      ghost var recs0, ids0 := recs, ids;
      var size := blockSizes[index];
      CountFree(index);
      total := total0 - size;
      TotalFree(recs0, ids0, index);
      StillMirrors(recs0, recs, sizes, Free(index));
    }

    /** One request of the utilization run. */
    method CountOp(op: Op, total0: int, ghost sizes: map<nat, nat>) returns (ok: bool, total: int)
      requires Counting() && Mirrors(recs, sizes) && OpOk(sizes, op, blocks.Length)
      requires op.Realloc? ==> sizes[op.index] < 0x8000_0000
      requires (forall i :: i in ids ==> i in recs) && total0 == Requested(recs, ids)
      modifies this, mm, mm.lib, mm.lib.arena, blocks, blockSizes
      ensures Tallied(op, sizes, total0, ok, total)
    {
      hide *;
      ok := true;
      match op {
        case Alloc(index, size) => ok, total := TallyAlloc(index, size, total0, sizes);
        case Realloc(index, newsize) => ok, total := TallyRealloc(index, newsize, total0, sizes);
        case Free(index) => total := TallyFree(index, total0, sizes);
      }
    }

    /** The heap is reset and initialized. */
    method StartCounting()
      requires Distinguished() && mm.lib.Valid()
      modifies this, mm, mm.lib, mm.lib.arena
      ensures Counting() && recs == map[] && ids == [] && 0 <= 4 * mm.top <= 16 + A.CHUNKSIZE
      ensures Mirrors(recs, map[]) && Requested(recs, ids) == 0
      ensures mm.lib.refusals == old(mm.lib.refusals)
    {
      hide WellFormedBut, RecsFit, Lists;
      mm.lib.MemResetBrk();
      var r := mm.MmInit();
      recs, ids := map[], [];
      EmptyFits(mm.blk, mm.top, mm.lib.arena[..], mm.free);
    }

    /** The figure that is divided by the heap size is the high-water mark of the live requests, although it
        is not updated on a free, and it never exceeds the heap size. */
    method EvalMmUtil(ops: seq<Op>) returns (ok: bool, maxTotal: int, heapsize: int)
      requires Distinguished() && mm.lib.Valid() && WellFormedTrace(ops, blocks.Length)
      modifies this, mm, mm.lib, mm.lib.arena, blocks, blockSizes
      ensures ok ==> Counting() && Mirrors(recs, SizesAfter(ops, |ops|)) && (forall i :: i in ids ==> i in recs)
      ensures ok ==> Requested(recs, ids) == TotalAfter(ops, |ops|)
      ensures ok ==> (forall k :: 0 <= k <= |ops| ==> TotalAfter(ops, k) <= maxTotal)
                     && (exists k :: 0 <= k <= |ops| && maxTotal == TotalAfter(ops, k))
      ensures ok ==> maxTotal <= heapsize == HeapSize()
      ensures ok ==> mm.lib.refusals == old(mm.lib.refusals)
      ensures Promised(ops, blocks.Length) ==> (ok <==> mm.lib.refusals == old(mm.lib.refusals))
      ensures Promised(ops, blocks.Length) && Affordable(ops) ==> ok
    {
      hide Promised, Outgrows, A.Refused, A.AdjustedSize, Affordable, TotalDemand, Mirrors, Requested,
           SizesAfter, Demand, WellFormedBut, RecsFit, OpOk, WellFormedTrace, Lists, After, HighWater, TotalAfter, Delta;
      StartCounting();
      AtStart(ops);
      MarkStarts(ops);
      var i, total := 0, 0;
      maxTotal, ok, heapsize := 0, true, 0;
      while i < |ops|
        invariant 0 <= i <= |ops| && Counting() && Mirrors(recs, SizesAfter(ops, i))
        invariant (forall j :: j in ids ==> j in recs) && total == Requested(recs, ids)
        invariant total == TotalAfter(ops, i) && HighWater(ops, i, maxTotal) && maxTotal <= 4 * mm.top
        invariant 4 * mm.top <= TotalDemand(ops, i) && mm.lib.refusals == old(mm.lib.refusals)
      {
        OpIsOk(ops, i, blocks.Length);
        if Promised(ops, blocks.Length) { PromisedIsModest(ops, blocks.Length, i); }
        if Affordable(ops) && !ops[i].Free? { AffordableIsServed(ops, i, mm.top); }
        DemandAdds(ops, i, mm.top);
        MarkMoves(ops, i, maxTotal);
        ok, total := CountOp(ops[i], total, SizesAfter(ops, i));
        if !ok {
          return;
        }
        RequestedInHeap(mm.lib.arena[..], mm.blk, mm.top, mm.free, recs, ids);
        if !ops[i].Free? {
          maxTotal := if total > maxTotal then total else maxTotal;
        }
        i := i + 1;
      }
      MarkTells(ops, |ops|, maxTotal);
      heapsize := mm.lib.brk;
    }
  }

  const Spoiled: seq<Op> := [Alloc(128, 8), Realloc(128, 16)]

  /** A promised and affordable trace whose one realloc is of an id with low byte 128. */
  lemma SpoiledIsPromised()
    ensures Promised(Spoiled, 129) && Affordable(Spoiled) && AllSeen(Spoiled, 2, false) && !AllSeen(Spoiled, 2, true)
  {
    assert SizesAfter(Spoiled, 0) == map[] && SizesAfter(Spoiled, 1) == map[128 := 8];
    assert OpOk(SizesAfter(Spoiled, 0), Spoiled[0], 129) && OpOk(SizesAfter(Spoiled, 1), Spoiled[1], 129);
    assert WellFormedTrace(Spoiled, 129);
    assert TotalDemand(Spoiled, 0) == 16 + A.CHUNKSIZE && TotalDemand(Spoiled, 1) == 16 + 2 * A.CHUNKSIZE;
    assert TotalDemand(Spoiled, 2) == 16 + 3 * A.CHUNKSIZE;
    assert LowByte(Spoiled[1].index) == 128;
  }

  /** The comparison of signed chars is to blame indeed: where char is signed, the driver reports this trace as
      data lost by its second request, and where it is not, it passes. */
  method SignsSpoilATrace(mm: A.Allocator, signed: bool) returns (v: Verdict)
    requires mm.lib.Valid()
    modifies mm, mm.lib, mm.lib.arena
    ensures v == if signed then Stopped(1, LostData) else Passed
  {
    var d := new Driver(mm, 129);
    SpoiledIsPromised();
    hide Promised, WellFormedTrace, Affordable, AllSeen, SeenAs;
    v := d.EvalMmValid(Spoiled, signed);
    if v.Stopped? { OnlyMemoryOrSigns(Spoiled, 129, signed, v.i, v.t); }
  }
}
