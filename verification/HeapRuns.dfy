/**
 Whole runs of `kmalloc` and `kfree`.

 `kfree` merges a block only with the block behind it, and only once, so after
 an arbitrary run adjacent free blocks can remain. What survives every run is
 the tiling; what a well-nested run gives back is the heap itself.
 */
module HeapRuns {
  import opened Machine
  import opened HeapModel

  // ---- Equality of heaps up to merging ------------------------------------

  /** `after` is `before` with some adjacent free blocks merged: the same live blocks, and no new boundary. */
  predicate Coarser(after: seq<Block>, before: seq<Block>) {
    Addrs(after) <= Addrs(before) && Live(after) == Live(before)
  }

  lemma CoarserThanItself(bs: seq<Block>)
    ensures Coarser(bs, bs)
  {
  }

  predicate NoAdjacentFree(bs: seq<Block>) {
    |bs| < 2 || (!(bs[0].free && bs[1].free) && NoAdjacentFree(bs[1..]))
  }

  /** A tiling with no two adjacent free blocks has nothing left to merge. */
  lemma {:induction false} CoarserOfMergedIsEqual(after: seq<Block>, before: seq<Block>, a: nat)
    requires TiledFrom(after, a) && TiledFrom(before, a)
    requires Coarser(after, before) && NoAdjacentFree(before)
    ensures after == before
  {
    if after == [] {
      if before != [] { TilingBounds(before, a, before[0]); }
    } else {
      TilingBounds(after, a, after[0]);
      SameHead(after, before, a);
      var x, y := after[1..], before[1..];
      var end := after[0].End();
      forall b | b in x ensures b.addr in Addrs(y) {
        TilingBounds(x, end, b);
        assert b in after && b.addr in Addrs(after);
        var c :| c in before && c.addr == b.addr;
        assert c in y;
      }
      if !after[0].free {
        var p := after[0].Ptr();
        if p in Live(x) { var b := LiveIsBlock(x, end, p); }
        if p in Live(y) { var b := LiveIsBlock(y, end, p); }
        assert Live(x) == Live(after) - {p};
        assert Live(y) == Live(before) - {p};
      }
      CoarserOfMergedIsEqual(x, y, end);
      assert after == [after[0]] + x && before == [before[0]] + y;
    }
  }

  lemma SameHead(after: seq<Block>, before: seq<Block>, a: nat)
    requires TiledFrom(after, a) && TiledFrom(before, a) && after != []
    requires Coarser(after, before) && NoAdjacentFree(before)
    ensures before != [] && after[0] == before[0]
  {
    assert after[0].addr in Addrs(after);
    var h, k := after[0], before[0];
    var p := h.Ptr();
    if !h.free {
      BlockIsLive(after, a, h);
      var b := LiveIsBlock(before, a, p);
      TilingSeparates(before, a, b, k);
    } else if !k.free {
      BlockIsLive(before, a, k);
      var b := LiveIsBlock(after, a, p);
      TilingSeparates(after, a, b, h);
    } else {
      // Both free. The end of `h` is a boundary of `before`, so `h` is at least as long as `k`;
      // were it longer, it would swallow the live block behind `k`.
      TilingBounds(after, a, h);
      if |after| > 1 {
        assert after[1].addr in Addrs(after);
        var c :| c in before && c.addr == after[1].addr;
        TilingSeparates(before, a, c, k);
      }
      TilingBounds(before, a, k);
      if h.End() > k.End() {
        var c := before[1];
        assert c in before && !c.free;
        BlockIsLive(before, a, c);
        var b := LiveIsBlock(after, a, c.Ptr());
        TilingSeparates(after, a, b, h);
      }
    }
  }

  // ---- Well-nested runs ---------------------------------------------------

  /** A run in which every block is freed after everything allocated later. */
  datatype Nest = Done | Alloc(size: u32, inner: Nest, rest: Nest)

  function Exec(bs: seq<Block>, run: Nest): seq<Block>
    decreases run
  {
    match run
    case Done => bs
    case Alloc(size, inner, rest) =>
      var g := Malloc(bs, RoundUp(size));
      var used := Exec(g.blocks, inner);
      Exec(if g.ptr == NULL then used else Free(used, g.ptr), rest)
  }

  lemma {:induction false} NestedRunCoarsens(bs: seq<Block>, run: Nest)
    requires Tiled(bs)
    ensures Tiled(Exec(bs, run)) && Coarser(Exec(bs, run), bs)
    decreases run
  {
    match run
    case Done =>
    case Alloc(size, inner, rest) =>
      var n := RoundUp(size);
      RoundUpAligned(size);
      var g := Malloc(bs, n);
      MallocTiles(bs, n, HEAP_START);
      MallocIsFirstFit(bs, n, HEAP_START);
      NestedRunCoarsens(g.blocks, inner);
      var used := Exec(g.blocks, inner);
      if g.ptr == NULL {
        NestedRunCoarsens(used, rest);
      } else {
        FreeUndoesMalloc(bs, n, used);
        NestedRunCoarsens(Free(used, g.ptr), rest);
      }
  }

  /** Freeing a block undoes its allocation when all that happened in between was undone. */
  lemma FreeUndoesMalloc(bs: seq<Block>, n: nat, used: seq<Block>)
    requires Tiled(bs) && n % 4 == 0 && Malloc(bs, n).ptr != NULL
    requires Tiled(used) && Coarser(used, Malloc(bs, n).blocks)
    ensures Tiled(Free(used, Malloc(bs, n).ptr)) && Coarser(Free(used, Malloc(bs, n).ptr), bs)
  {
    var g := Malloc(bs, n);
    MallocLive(bs, n, HEAP_START);
    MallocTiles(bs, n, HEAP_START);
    FreeTiles(used, g.ptr, HEAP_START);
    FreeLive(used, g.ptr, HEAP_START);
    assert Live(bs)[g.ptr := Live(g.blocks)[g.ptr]] - {g.ptr} == Live(bs);
    var c := LiveIsBlock(used, HEAP_START, g.ptr);
    var freed := Free(used, g.ptr);
    forall e | e in freed ensures e.addr in Addrs(bs) {
      BoundaryUndone(bs, n, used, c, e);
    }
  }

  lemma BoundaryUndone(bs: seq<Block>, n: nat, used: seq<Block>, c: Block, e: Block)
    requires Tiled(bs) && n % 4 == 0 && Malloc(bs, n).ptr != NULL
    requires Tiled(Malloc(bs, n).blocks)
    requires Tiled(used) && Coarser(used, Malloc(bs, n).blocks)
    requires c in used && c.Ptr() == Malloc(bs, n).ptr && c.Ptr() in Live(used) && c.size == Live(used)[c.Ptr()]
    requires e in Free(used, c.Ptr())
    ensures e.addr in Addrs(bs)
  {
    var g := Malloc(bs, n);
    FreeBoundary(used, HEAP_START, c);
    assert e.addr in Addrs(Free(used, c.Ptr()));
    var d :| d in g.blocks && d.addr == e.addr;
    MallocBoundary(bs, n, HEAP_START, d);
    if e.addr !in Addrs(bs) {
      forall f | f in used && f.addr == c.End() ensures f.free {
        if !f.free {
          BlockIsLive(used, HEAP_START, f);
          var h := LiveIsBlock(g.blocks, HEAP_START, f.Ptr());
          MallocBoundary(bs, n, HEAP_START, h);
        }
      }
    }
  }

  /** `kmalloc` adds at most one boundary, the end of the granted block, and a free block starts there. */
  lemma MallocBoundary(bs: seq<Block>, n: nat, a: nat, d: Block)
    requires TiledFrom(bs, a) && n % 4 == 0 && Malloc(bs, n).ptr != NULL && d in Malloc(bs, n).blocks
    ensures Malloc(bs, n).ptr in Live(Malloc(bs, n).blocks)
    ensures d.addr in Addrs(bs) ||
            (d.free && d.addr == Malloc(bs, n).ptr + Live(Malloc(bs, n).blocks)[Malloc(bs, n).ptr])
  {
    var g := Malloc(bs, n);
    var i := MallocShape(bs, n);
    assert bs[i] in bs;
    assert d in bs[..i] || d in Take(bs[i], n) || d in bs[i + 1..];
    GrantedBlock(bs, n, a, i);
  }

  lemma GrantedBlock(bs: seq<Block>, n: nat, a: nat, i: nat)
    requires TiledFrom(bs, a) && n % 4 == 0 && Malloc(bs, n).ptr != NULL
    requires i < |bs| && Fits(bs[i], n) && Malloc(bs, n).ptr == bs[i].Ptr()
    requires Malloc(bs, n).blocks == bs[..i] + Take(bs[i], n) + bs[i + 1..]
    ensures Malloc(bs, n).ptr in Live(Malloc(bs, n).blocks)
    ensures Live(Malloc(bs, n).blocks)[bs[i].Ptr()] == Take(bs[i], n)[0].size
  {
    hide TiledFrom, Live, Malloc;
    MallocTiles(bs, n, a);
    assert Malloc(bs, n).blocks[i] == Take(bs[i], n)[0];
    BlockIsLive(Malloc(bs, n).blocks, a, Take(bs[i], n)[0]);
  }

  /** `kfree` adds no boundary, and removes the one behind the block if a free block starts there. */
  lemma {:induction false} FreeBoundary(bs: seq<Block>, a: nat, c: Block)
    requires TiledFrom(bs, a) && c in bs
    ensures Addrs(Free(bs, c.Ptr())) <= Addrs(bs)
    ensures (forall e :: e in bs && e.addr == c.End() ==> e.free) ==> c.End() !in Addrs(Free(bs, c.Ptr()))
  {
    var freed := Free(bs, c.Ptr());
    var rest := bs[1..];
    if bs[0].Ptr() == c.Ptr() {
      TilingSeparates(bs, a, bs[0], c);
      assert forall e :: e in freed ==> e == freed[0] || e in rest;
      assert freed[0].addr == bs[0].addr && bs[0] in bs;
      if |bs| > 1 {
        assert bs[1] in bs && bs[1].addr == c.End();
        if bs[1].free {
          assert forall e :: e in freed ==> e == freed[0] || e in rest[1..];
          forall e | e in rest[1..] ensures e.addr > c.End() {
            TilingBounds(rest[1..], bs[1].End(), e);
          }
        }
      }
    } else {
      assert c in rest;
      FreeBoundary(rest, bs[0].End(), c);
      assert forall e :: e in freed <==> e == bs[0] || e in Free(rest, c.Ptr());
      assert Addrs(rest) <= Addrs(bs);
      assert bs[0] in bs;
      if forall e :: e in bs && e.addr == c.End() ==> e.free {
        TilingBounds(rest, bs[0].End(), c);
      }
    }
  }

  /** Every well-nested run gives back a heap without adjacent free blocks exactly as it was. */
  lemma NestedRunRestores(bs: seq<Block>, run: Nest)
    requires Tiled(bs) && NoAdjacentFree(bs)
    ensures Exec(bs, run) == bs
  {
    NestedRunCoarsens(bs, run);
    CoarserOfMergedIsEqual(Exec(bs, run), bs, HEAP_START);
  }

  /** From `memory_init`, it ends in the single free block of 65524 bytes. */
  lemma NestedRunFromBoot(run: Nest)
    ensures Exec(INITIAL, run) == [Block(0x10_0000, 65524, true)]
  {
    assert INITIAL[1..] == [];
    NestedRunRestores(INITIAL, run);
  }

  // ---- Exactly which heaps every nested run restores ----------------------

  function Room(bs: seq<Block>): nat {
    if bs == [] then 0 else (if bs[0].free then bs[0].size + 1 else 0) + Room(bs[1..])
  }

  lemma {:induction false} MallocTakesRoom(bs: seq<Block>, n: nat)
    requires Malloc(bs, n).ptr != NULL
    ensures Room(Malloc(bs, n).blocks) < Room(bs)
  {
    var g := Malloc(bs, n);
    if Fits(bs[0], n) {
      var t := Take(bs[0], n);
      if |t| == 2 {
        assert g.blocks[1..] == [t[1]] + bs[1..];
        assert g.blocks[1..][1..] == bs[1..];
      } else {
        assert g.blocks[1..] == bs[1..];
      }
    } else {
      MallocTakesRoom(bs[1..], n);
      assert g.blocks[1..] == Malloc(bs[1..], n).blocks;
    }
  }

  /** Freeing a block swallows the free block `y` behind it. */
  lemma FreeSwallowsNext(bs: seq<Block>, c: Block, y: Block)
    requires Tiled(bs) && c in bs && y in bs && y.free && y.addr == c.End()
    ensures y.addr !in Addrs(Free(bs, c.Ptr()))
  {
    forall e | e in bs && e.addr == y.addr ensures e.free {
      TilingSeparates(bs, HEAP_START, e, y);
    }
    FreeBoundary(bs, HEAP_START, c);
  }

  lemma FreeKeepsGone(bs: seq<Block>, p: nat, a: nat)
    requires Tiled(bs) && p in Live(bs) && a !in Addrs(bs)
    ensures a !in Addrs(Free(bs, p))
  {
    var c := LiveIsBlock(bs, HEAP_START, p);
    FreeBoundary(bs, HEAP_START, c);
  }

  lemma GrantKeepsOthers(bs: seq<Block>, after: seq<Block>, n: nat, i: nat, b: Block)
    requires i < |bs| && Fits(bs[i], n) && b in bs && b != bs[i]
    requires after == bs[..i] + Take(bs[i], n) + bs[i + 1..]
    ensures b in after
  {
    assert bs == bs[..i] + [bs[i]] + bs[i + 1..];
  }

  lemma MergeAt(bs: seq<Block>, after: seq<Block>, x: Block, y: Block, n: nat, i: nat)
    requires i < |bs| && bs[i] == x && Fits(x, n) && x.size <= n + HEADER
    requires after == bs[..i] + Take(x, n) + bs[i + 1..] && Tiled(after)
    requires y in bs && y.free && y.addr == x.End()
    ensures y.addr !in Addrs(Free(after, x.Ptr()))
  {
    GrantKeepsOthers(bs, after, n, i, y);
    var c := x.(free := false);
    assert after[i] == c;
    FreeSwallowsNext(after, c, y);
  }

  /** A request that `x` can meet is met by `x`, which merges with `y` on free, or leaves both alone. */
  lemma GrantCases(bs: seq<Block>, x: Block, y: Block, n: nat)
    requires Tiled(bs) && x in bs && y in bs && x.free && y.free && y.addr == x.End()
    requires n % 4 == 0 && n <= x.size <= n + HEADER
    ensures var g := Malloc(bs, n);
            && g.ptr != NULL && Tiled(g.blocks) && Room(g.blocks) < Room(bs)
            && ((x in g.blocks && y in g.blocks) || y.addr !in Addrs(Free(g.blocks, g.ptr)))
  {
    MallocIsFirstFit(bs, n, HEAP_START);
    assert Fits(x, n);
    var g := Malloc(bs, n);
    MallocTiles(bs, n, HEAP_START);
    MallocTakesRoom(bs, n);
    var i := MallocShape(bs, n);
    if bs[i] == x {
      MergeAt(bs, g.blocks, x, y, n, i);
    } else {
      GrantKeepsOthers(bs, g.blocks, n, i, x);
      if bs[i] == y {
        FirstFitIsFirst(bs, x, y, n, i);
      }
      GrantKeepsOthers(bs, g.blocks, n, i, y);
    }
  }

  lemma FirstFitIsFirst(bs: seq<Block>, x: Block, y: Block, n: nat, i: nat)
    requires Tiled(bs) && x in bs && y in bs && Fits(x, n) && y.addr == x.End()
    requires i < |bs| && forall j :: 0 <= j < i ==> !Fits(bs[j], n)
    ensures bs[i] != y
  {
    if bs[i] == y {
      var k :| 0 <= k < |bs| && bs[k] == x;
      AddressesAscend(bs, HEAP_START, i, k);
    }
  }

  /** Two adjacent free blocks `x` and `y`: some nested run merges them for good. */
  lemma {:induction false} MergingRun(bs: seq<Block>, x: Block, y: Block, n: u32) returns (run: Nest)
    requires Tiled(bs) && x in bs && y in bs && x.free && y.free && y.addr == x.End()
    requires RoundUp(n) == n <= x.size <= n + HEADER
    ensures y.addr !in Addrs(Exec(bs, run))
    decreases Room(bs)
  {
    RoundUpAligned(n);
    GrantCases(bs, x, y, n);
    var g := Malloc(bs, n);
    if x in g.blocks && y in g.blocks {
      var inner := MergingRun(g.blocks, x, y, n);
      NestedRunCoarsens(g.blocks, inner);
      MallocLive(bs, n, HEAP_START);
      FreeKeepsGone(Exec(g.blocks, inner), g.ptr, y.addr);
      run := Alloc(n, inner, Done);
    } else {
      run := Alloc(n, Done, Done);
    }
  }

  lemma {:induction false} AdjacentFree(bs: seq<Block>, a: nat) returns (x: Block, y: Block)
    requires TiledFrom(bs, a) && !NoAdjacentFree(bs)
    ensures x in bs && y in bs && x.free && y.free && y.addr == x.End()
  {
    if bs[0].free && bs[1].free {
      x, y := bs[0], bs[1];
    } else {
      x, y := AdjacentFree(bs[1..], bs[0].End());
    }
  }

  /** A heap is given back exactly by every nested run if and only if it has no adjacent free blocks. */
  lemma NestedRunsRestoreIff(bs: seq<Block>)
    requires Tiled(bs)
    ensures NoAdjacentFree(bs) <==> forall run :: Exec(bs, run) == bs
  {
    if NoAdjacentFree(bs) {
      forall run ensures Exec(bs, run) == bs {
        NestedRunRestores(bs, run);
      }
    } else {
      var x, y := AdjacentFree(bs, HEAP_START);
      TilingBounds(bs, HEAP_START, x);
      RoundUpAligned(x.size / 8 * 8);
      var run := MergingRun(bs, x, y, x.size / 8 * 8);
      assert y.addr in Addrs(bs);
      assert Exec(bs, run) != bs;
    }
  }

  // ---- Runs that are not nested -------------------------------------------

  /** `kmalloc` never makes two free blocks adjacent. */
  lemma {:induction false} MallocKeepsMerged(bs: seq<Block>, n: nat)
    requires NoAdjacentFree(bs)
    ensures NoAdjacentFree(Malloc(bs, n).blocks)
    ensures bs != [] ==> Malloc(bs, n).blocks != [] && (Malloc(bs, n).blocks[0].free ==> bs[0].free)
  {
    if bs != [] {
      var rest := bs[1..];
      MallocKeepsMerged(rest, n);
      if Fits(bs[0], n) {
        var t := Take(bs[0], n);
        if |t| == 2 {
          assert Malloc(bs, n).blocks[1..] == [t[1]] + rest;
          assert ([t[1]] + rest)[1..] == rest;
        } else {
          assert Malloc(bs, n).blocks[1..] == rest;
        }
      } else {
        assert Malloc(bs, n).blocks[1..] == Malloc(rest, n).blocks;
      }
    }
  }

  /** `kfree` keeps free blocks apart exactly when the block in front of the freed one is live. */
  lemma {:induction false} FreeKeepsMergedIff(bs: seq<Block>, i: nat, a: nat)
    requires TiledFrom(bs, a) && NoAdjacentFree(bs) && i < |bs| && !bs[i].free
    ensures NoAdjacentFree(Free(bs, bs[i].Ptr())) <==> (i == 0 || !bs[i - 1].free)
  {
    var rest := bs[1..];
    var freed := Free(bs, bs[i].Ptr());
    if i == 0 {
      if |bs| > 1 && bs[1].free {
        assert freed[1..] == rest[1..];
      } else {
        assert freed[1..] == rest;
      }
    } else {
      TilingBounds(rest, bs[0].End(), bs[i]);
      FreeKeepsMergedIff(rest, i - 1, bs[0].End());
      assert freed[1..] == Free(rest, bs[i].Ptr());
      if i > 1 {
        assert bs[i] == rest[1..][i - 2];
        TilingBounds(rest[1..], rest[0].End(), bs[i]);
      }
    }
  }

  datatype Call = Kmalloc(size: u32) | Kfree(ptr: nat)

  /** An arbitrary run; freeing a pointer that is not live is outside the contract and left out. */
  function Run(bs: seq<Block>, calls: seq<Call>): seq<Block>
    decreases |calls|
  {
    if calls == [] then bs else Run(Perform(bs, calls[0]), calls[1..])
  }

  function Perform(bs: seq<Block>, call: Call): seq<Block> {
    match call
    case Kmalloc(size) => Malloc(bs, RoundUp(size)).blocks
    case Kfree(p) => if p in Live(bs) then Free(bs, p) else bs
  }

  lemma LivePayloadsApart(bs: seq<Block>, p: nat, q: nat)
    requires Tiled(bs) && p in Live(bs) && q in Live(bs) && p != q
    ensures p + Live(bs)[p] <= q - HEADER || q + Live(bs)[q] <= p - HEADER
  {
    var b := LiveIsBlock(bs, HEAP_START, p);
    var c := LiveIsBlock(bs, HEAP_START, q);
    TilingBounds(bs, HEAP_START, b);
    TilingSeparates(bs, HEAP_START, b, c);
  }

  /** After every run: no gap and no overlap, live payloads apart, and every byte accounted for. */
  lemma {:induction false} EveryRunTiles(bs: seq<Block>, calls: seq<Call>)
    requires Tiled(bs)
    ensures var after := Run(bs, calls);
            && Tiled(after)
            && FreeSum(after) + UsedSum(after) + HEADER * |after| == HEAP_SIZE
            && (forall p :: p in Live(after) ==> p % 4 == 0)
            && forall p, q :: p in Live(after) && q in Live(after) && p != q ==>
                 p + Live(after)[p] <= q - HEADER || q + Live(after)[q] <= p - HEADER
    decreases |calls|
  {
    if calls == [] {
      BytesConserved(bs, HEAP_START);
      forall p | p in Live(bs) ensures p % 4 == 0 {
        var b := LiveIsBlock(bs, HEAP_START, p);
        TilingBounds(bs, HEAP_START, b);
      }
      forall p, q | p in Live(bs) && q in Live(bs) && p != q
        ensures p + Live(bs)[p] <= q - HEADER || q + Live(bs)[q] <= p - HEADER
      {
        LivePayloadsApart(bs, p, q);
      }
    } else {
      match calls[0] {
        case Kmalloc(size) =>
          RoundUpAligned(size);
          MallocTiles(bs, RoundUp(size), HEAP_START);
        case Kfree(p) => FreeTiles(bs, p, HEAP_START);
      }
      EveryRunTiles(Perform(bs, calls[0]), calls[1..]);
    }
  }

  // ---- Freeing in the order of allocation -------------------------------------

  /** A free block starts at `x`. */
  predicate FreeAt(bs: seq<Block>, x: nat) {
    x in Addrs(bs) && x + HEADER !in Live(bs)
  }

  lemma BlockAt(bs: seq<Block>, x: nat) returns (b: Block)
    requires x in Addrs(bs)
    ensures b in bs && b.addr == x
  {
    b :| b in bs && b.addr == x;
  }

  lemma AddrOfBlock(bs: seq<Block>, b: Block)
    requires b in bs
    ensures b.addr in Addrs(bs)
  {
  }

  lemma FreeAtIsFree(bs: seq<Block>, e: Block)
    requires Tiled(bs) && e in bs
    ensures e.free <==> FreeAt(bs, e.addr)
  {
    AddrOfBlock(bs, e);
    if e.free && e.addr + HEADER in Live(bs) {
      var b := LiveIsBlock(bs, HEAP_START, e.Ptr());
      TilingSeparates(bs, HEAP_START, b, e);
    } else if !e.free {
      BlockIsLive(bs, HEAP_START, e);
    }
  }

  /** `kfree` removes the boundary behind the block if a free block starts there, and no other. */
  lemma FreeAddrs(bs: seq<Block>, p: nat)
    requires Tiled(bs) && p in Live(bs)
    ensures Tiled(Free(bs, p)) && Live(Free(bs, p)) == Live(bs) - {p}
    ensures var end := p + Live(bs)[p];
            Addrs(Free(bs, p)) == if FreeAt(bs, end) then Addrs(bs) - {end} else Addrs(bs)
  {
    FreeTiles(bs, p, HEAP_START);
    FreeLive(bs, p, HEAP_START);
    var c := LiveIsBlock(bs, HEAP_START, p);
    FreeBoundary(bs, HEAP_START, c);
    forall e | e in bs && e.addr == c.End() ensures e.free <==> FreeAt(bs, c.End()) {
      FreeAtIsFree(bs, e);
    }
    FreeKeepsAddrs(bs, HEAP_START, c);
  }

  lemma {:induction false} FreeKeepsAddrs(bs: seq<Block>, a: nat, c: Block)
    requires TiledFrom(bs, a) && c in bs
    ensures Addrs(bs) - {c.End()} <= Addrs(Free(bs, c.Ptr()))
    ensures (exists e :: e in bs && e.addr == c.End() && !e.free) ==> c.End() in Addrs(Free(bs, c.Ptr()))
  {
    var (freed, rest) := (Free(bs, c.Ptr()), bs[1..]);
    assert forall e :: e in bs <==> e == bs[0] || e in rest;
    if bs[0].Ptr() == c.Ptr() {
      TilingSeparates(bs, a, bs[0], c);
      assert freed[0] in freed && freed[0].addr == bs[0].addr;
      if |bs| > 1 {
        assert rest[0].addr == c.End();
        forall e | e in rest[1..] ensures e in freed && e.addr > c.End() {
          TilingBounds(rest[1..], rest[0].End(), e);
          if rest[0].free {
            assert freed[1..] == rest[1..];
          } else {
            assert freed[1..] == rest;
          }
        }
        if !rest[0].free {
          assert rest[0] in freed[1..];
        }
        assert forall e :: e in rest ==> e == rest[0] || e in rest[1..];
      }
    } else {
      FreeKeepsAddrs(rest, bs[0].End(), c);
      assert freed == [bs[0]] + Free(rest, c.Ptr());
      assert Addrs(freed) == Addrs(Free(rest, c.Ptr())) + {bs[0].addr};
      if c.End() == bs[0].addr {
        TilingBounds(rest, bs[0].End(), c);
      }
    }
  }

  lemma {:induction false} MallocKeepsAddrs(bs: seq<Block>, n: nat)
    requires Malloc(bs, n).ptr != NULL
    ensures HEADER <= Malloc(bs, n).ptr && Malloc(bs, n).ptr - HEADER in Addrs(bs)
    ensures Addrs(bs) <= Addrs(Malloc(bs, n).blocks)
  {
    var (g, rest) := (Malloc(bs, n), bs[1..]);
    assert Addrs(bs) == Addrs(rest) + {bs[0].addr} by {
      assert forall b :: b in bs <==> b == bs[0] || b in rest;
    }
    if Fits(bs[0], n) {
      var t := Take(bs[0], n);
      assert g.blocks[0] == t[0] && g.blocks[0] in g.blocks;
      forall b | b in rest ensures b in g.blocks {
        assert b in t + rest;
      }
    } else {
      MallocKeepsAddrs(rest, n);
      assert forall b :: b in g.blocks <==> b == bs[0] || b in Malloc(rest, n).blocks;
    }
  }

  /** `kmalloc` keeps every boundary, and a new one is the end of the granted block with a free block behind it. */
  lemma MallocAddrs(bs: seq<Block>, n: nat)
    requires Tiled(bs) && n % 4 == 0 && Malloc(bs, n).ptr != NULL
    ensures var g := Malloc(bs, n);
            && Tiled(g.blocks) && g.ptr !in Live(bs) && g.ptr in Live(g.blocks)
            && Live(g.blocks) == Live(bs)[g.ptr := Live(g.blocks)[g.ptr]]
            && HEADER <= g.ptr && g.ptr - HEADER in Addrs(bs) && Addrs(bs) <= Addrs(g.blocks)
            && forall x :: x in Addrs(g.blocks) && x !in Addrs(bs) ==>
                 x == g.ptr + Live(g.blocks)[g.ptr] && x + HEADER !in Live(g.blocks)
  {
    hide Malloc, Live, TiledFrom, Addrs;
    var g := Malloc(bs, n);
    MallocTiles(bs, n, HEAP_START);
    MallocLive(bs, n, HEAP_START);
    MallocKeepsAddrs(bs, n);
    forall x | x in Addrs(g.blocks) && x !in Addrs(bs)
      ensures x == g.ptr + Live(g.blocks)[g.ptr] && x + HEADER !in Live(g.blocks)
    {
      var d := BlockAt(g.blocks, x);
      MallocBoundary(bs, n, HEAP_START, d);
      FreeAtIsFree(g.blocks, d);
    }
  }

  /** Two live blocks do not end at the same place. */
  lemma EndsDiffer(bs: seq<Block>, p: nat, q: nat)
    requires Tiled(bs) && p in Live(bs) && q in Live(bs) && p != q
    ensures p + Live(bs)[p] != q + Live(bs)[q]
  {
    LivePayloadsApart(bs, p, q);
  }

  /** The second of two blocks was cut off right behind the first. */
  predicate CutBehind(bs: seq<Block>, one: Grant, two: Grant) {
    && one.ptr in Live(one.blocks) && HEADER <= two.ptr
    && two.ptr - HEADER == one.ptr + Live(one.blocks)[one.ptr] && two.ptr - HEADER !in Addrs(bs)
  }

  /** Two blocks freed in the order of their allocation give the heap back, up to merging, exactly if the second was not
      cut off right behind the first. */
  lemma ForwardFreesCoarsenIff(bs: seq<Block>, m: nat, n: nat)
    requires Tiled(bs) && m % 4 == 0 && n % 4 == 0
    requires Malloc(bs, m).ptr != NULL && Malloc(Malloc(bs, m).blocks, n).ptr != NULL
    ensures var (one, two) := (Malloc(bs, m), Malloc(Malloc(bs, m).blocks, n));
            var after := Free(Free(two.blocks, one.ptr), two.ptr);
            && Tiled(after) && Live(after) == Live(bs)
            && (Coarser(after, bs) <==> !CutBehind(bs, one, two))
            && (CutBehind(bs, one, two) ==> two.ptr - HEADER in Addrs(after))
  {
    hide Tiled, Malloc, Free, Live, Addrs;
    var (one, two) := (Malloc(bs, m), Malloc(Malloc(bs, m).blocks, n));
    MallocAddrs(bs, m);
    MallocAddrs(one.blocks, n);
    var mid := Free(two.blocks, one.ptr);
    FreeAddrs(two.blocks, one.ptr);
    FreeAddrs(mid, two.ptr);
    EndsDiffer(two.blocks, one.ptr, two.ptr);
    var after := Free(mid, two.ptr);
    assert Live(after) == Live(bs);
    if !CutBehind(bs, one, two) {
      forall x | x in Addrs(after) ensures x in Addrs(bs) {
      }
    }
  }

  /** Freed in allocation order, two blocks leave adjacent free blocks behind. */
  lemma ForwardMergeLeavesAdjacentFree()
    ensures var one := Malloc(INITIAL, 8);
            var two := Malloc(one.blocks, 8);
            !NoAdjacentFree(Free(Free(two.blocks, one.ptr), two.ptr))
  {
    var one := Malloc(INITIAL, 8);
    assert one.blocks == [Block(0x10_0000, 8, false), Block(0x10_0014, 65504, true)];
    assert one.blocks[1..] == [Block(0x10_0014, 65504, true)];
    var two := Malloc(one.blocks, 8);
    assert two.blocks == [one.blocks[0]] + Malloc(one.blocks[1..], 8).blocks;
    assert two.blocks == [Block(0x10_0000, 8, false), Block(0x10_0014, 8, false), Block(0x10_0028, 65484, true)];
    var f := Free(two.blocks, one.ptr);
    assert f == [Block(0x10_0000, 8, true), Block(0x10_0014, 8, false), Block(0x10_0028, 65484, true)];
    assert f[1..] == [Block(0x10_0014, 8, false), Block(0x10_0028, 65484, true)];
    assert f[1..][1..] == [Block(0x10_0028, 65484, true)];
    assert Free(f, two.ptr) == [f[0]] + Release(f[1], f[1..][1..]);
  }

  // ---- Alignment ----------------------------------------------------------------

  /** A grant is 8-aligned exactly if the first fitting block starts 4 behind a multiple of 8. */
  lemma GrantAlignedIff(bs: seq<Block>, n: nat) returns (i: nat)
    requires Malloc(bs, n).ptr != NULL
    ensures i < |bs| && Fits(bs[i], n) && forall j :: 0 <= j < i ==> !Fits(bs[j], n)
    ensures Malloc(bs, n).ptr % 8 == 0 <==> bs[i].addr % 8 == 4
  {
    i := MallocShape(bs, n);
  }

  /** The first grant after `memory_init`, whatever its size, is not. */
  lemma FirstGrantIsMisaligned(n: u32)
    requires Malloc(INITIAL, RoundUp(n)).ptr != NULL
    ensures Malloc(INITIAL, RoundUp(n)).ptr % 8 == 4
  {
    var i := GrantAlignedIff(INITIAL, RoundUp(n));
  }

  // ---- A heap in use from its start on ------------------------------------------

  /** All blocks are in use but the last, which has `room` bytes. */
  predicate Bumped(bs: seq<Block>, room: nat) {
    && bs != [] && (forall i :: 0 <= i < |bs| - 1 ==> !bs[i].free)
    && bs[|bs| - 1].free && bs[|bs| - 1].size == room
  }

  lemma InitialIsBumped()
    ensures Tiled(INITIAL) && Bumped(INITIAL, 65524)
  {
    assert INITIAL[1..] == [];
  }

  /** Such a heap grants from its last block, and what is left is cut off right behind the grant. */
  lemma BumpedGrant(bs: seq<Block>, room: nat, n: nat)
    requires Tiled(bs) && n % 4 == 0 && Bumped(bs, room) && n + HEADER < room
    ensures var g := Malloc(bs, n);
            && g.ptr == bs[|bs| - 1].Ptr() && g.ptr != NULL && Tiled(g.blocks) && Bumped(g.blocks, room - n - HEADER)
            && g.ptr in Live(g.blocks) && Live(g.blocks)[g.ptr] == n
            && g.blocks[|g.blocks| - 1].addr == g.ptr + n && g.ptr + n !in Addrs(bs)
  {
    hide Malloc, Live;
    var (last, g) := (bs[|bs| - 1], Malloc(bs, n));
    MallocAt(bs, n, |bs| - 1);
    assert bs[|bs| - 1 + 1..] == [];
    assert g.blocks == bs[..|bs| - 1] + Take(last, n);
    MallocTiles(bs, n, HEAP_START);
    assert Take(last, n)[0] == g.blocks[|bs| - 1];
    BlockIsLive(g.blocks, HEAP_START, g.blocks[|bs| - 1]);
    forall b | b in bs ensures b.addr != g.ptr + n {
      TilingSeparates(bs, HEAP_START, b, last);
      TilingBounds(bs, HEAP_START, b);
    }
  }
}
