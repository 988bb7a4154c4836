/**
 The heap as a list of blocks: what `kmalloc` and `kfree` do to the list, and
 what that means for the blocks the callers hold.
 */
module HeapModel {
  import opened Machine

  const HEAP_START: nat := 0x10_0000
  const HEAP_SIZE: nat := 0x1_0000
  const HEAP_END: nat := HEAP_START + HEAP_SIZE
  const HEADER: nat := 12

  /** A header at byte address `addr`, followed by `size` payload bytes. */
  datatype Block = Block(addr: nat, size: nat, free: bool) {
    function End(): nat { addr + HEADER + size }

    /** The pointer handed to the caller. */
    function Ptr(): nat { addr + HEADER }

    /** The value of the `next` field when the blocks tile the heap. */
    function Next(): nat { if End() == HEAP_END then NULL else End() }
  }

  /** The blocks cover the bytes from `a` to the end of the heap, in order, without gap or overlap. */
  predicate TiledFrom(bs: seq<Block>, a: nat) {
    && a % 4 == 0
    && if bs == [] then a == HEAP_END
       else bs[0].addr == a && TiledFrom(bs[1..], bs[0].End())
  }

  predicate Tiled(bs: seq<Block>) {
    bs != [] && TiledFrom(bs, HEAP_START)
  }

  /** The heap that `memory_init` builds. */
  const INITIAL: seq<Block> := [Block(HEAP_START, HEAP_SIZE - HEADER, true)]

  // ---- The two operations -------------------------------------------------

  /** `m` with its low three bits cleared. */
  function ClearLow3(m: nat): (r: nat)
    ensures r <= m < r + 8
  {
    if m < 8 then 0 else 8 + ClearLow3(m - 8)
  }

  lemma {:induction false} ClearLow3Eights(m: nat) returns (k: nat)
    ensures ClearLow3(m) == 8 * k && 8 * k <= m < 8 * k + 8
  {
    if m < 8 {
      k := 0;
    } else {
      k := ClearLow3Eights(m - 8);
      k := k + 1;
    }
  }

  lemma Eights(m: nat, k: nat)
    requires 8 * k <= m < 8 * k + 8
    ensures m % 8 == m - 8 * k
  {
    var (q, r) := (m / 8, m % 8);
    assert m == 8 * q + r && r < 8;
    assert q == k;
  }

  lemma EightTimes(k: nat)
    ensures (8 * k) % 4 == 0
  {
    assert 8 * k == 4 * (2 * k);
  }

  lemma ClearLow3Aligned(m: nat)
    ensures ClearLow3(m) == m - m % 8 && ClearLow3(m) % 4 == 0
  {
    var k := ClearLow3Eights(m);
    Eights(m, k);
    EightTimes(k);
  }

  /** The size `kmalloc` works with: wrap-around 32-bit addition of 7, then the low three bits cleared. */
  function RoundUp(n: u32): (r: u32)
    ensures n <= U32_LIMIT - 8 ==> n <= r < n + 8
    ensures n > U32_LIMIT - 8 ==> r == 0
  {
    ClearLow3(if n + 7 < U32_LIMIT then n + 7 else n + 7 - U32_LIMIT)
  }

  lemma RoundUpAligned(n: u32)
    ensures RoundUp(n) % 4 == 0
    ensures n % 8 == 0 ==> RoundUp(n) == n
  {
    var m := if n + 7 < U32_LIMIT then n + 7 else n + 7 - U32_LIMIT;
    ClearLow3Aligned(m);
  }

  /** The point of the rounding: a multiple of 8, and the least one that is enough unless the addition wraps. */
  lemma RoundUpIsLeast(n: u32)
    ensures RoundUp(n) % 8 == 0
    ensures n <= U32_LIMIT - 8 ==> n <= RoundUp(n) && forall m: nat :: m % 8 == 0 && n <= m ==> RoundUp(n) <= m
    ensures n > U32_LIMIT - 8 ==> RoundUp(n) == 0
  {
    var m := if n + 7 < U32_LIMIT then n + 7 else n + 7 - U32_LIMIT;
    ClearLow3Aligned(m);
  }

  predicate Fits(b: Block, n: nat) {
    b.free && b.size >= n
  }

  function Take(b: Block, n: nat): seq<Block>
    requires Fits(b, n)
  {
    if b.size > n + HEADER then
      [Block(b.addr, n, false), Block(b.addr + HEADER + n, b.size - n - HEADER, true)]
    else
      [b.(free := false)]
  }

  datatype Grant = Grant(ptr: nat, blocks: seq<Block>)

  function Malloc(bs: seq<Block>, n: nat): Grant {
    if bs == [] then Grant(NULL, [])
    else if Fits(bs[0], n) then Grant(bs[0].Ptr(), Take(bs[0], n) + bs[1..])
    else
      var g := Malloc(bs[1..], n);
      Grant(g.ptr, [bs[0]] + g.blocks)
  }

  function Merged(b: Block, c: Block): Block {
    Block(b.addr, b.size + c.size + HEADER, true)
  }

  /** Frees `b` and merges it with the block behind it, once. */
  function Release(b: Block, rest: seq<Block>): seq<Block> {
    if rest != [] && rest[0].free then [Merged(b, rest[0])] + rest[1..]
    else [b.(free := true)] + rest
  }

  function Free(bs: seq<Block>, p: nat): seq<Block> {
    if bs == [] then []
    else if bs[0].Ptr() == p then Release(bs[0], bs[1..])
    else [bs[0]] + Free(bs[1..], p)
  }

  // ---- What callers see ---------------------------------------------------

  /** The live pointers, each with the payload size of its block. */
  function Live(bs: seq<Block>): map<nat, nat> {
    if bs == [] then map[]
    else if bs[0].free then Live(bs[1..])
    else Live(bs[1..])[bs[0].Ptr() := bs[0].size]
  }

  function Addrs(bs: seq<Block>): set<nat> {
    set b | b in bs :: b.addr
  }

  function FreeSum(bs: seq<Block>): nat {
    if bs == [] then 0 else (if bs[0].free then bs[0].size else 0) + FreeSum(bs[1..])
  }

  function UsedSum(bs: seq<Block>): nat {
    if bs == [] then 0 else (if bs[0].free then 0 else bs[0].size) + UsedSum(bs[1..])
  }

  // ---- Tiling -------------------------------------------------------------

  /** A block of a tiling lies in the heap and is word-aligned. */
  lemma {:induction false} TilingBounds(bs: seq<Block>, a: nat, b: Block)
    requires TiledFrom(bs, a) && b in bs
    ensures a <= b.addr && b.End() <= HEAP_END && b.addr % 4 == 0 && b.size % 4 == 0
  {
    if b != bs[0] {
      TilingBounds(bs[1..], bs[0].End(), b);
    } else if |bs| > 1 {
      TilingBounds(bs[1..], bs[0].End(), bs[1]);
    }
  }

  /** Two blocks of a tiling do not overlap. */
  lemma {:induction false} TilingSeparates(bs: seq<Block>, a: nat, b: Block, c: Block)
    requires TiledFrom(bs, a) && b in bs && c in bs
    ensures b == c || b.End() <= c.addr || c.End() <= b.addr
  {
    if b == bs[0] && c in bs[1..] {
      TilingBounds(bs[1..], bs[0].End(), c);
    } else if c == bs[0] && b in bs[1..] {
      TilingBounds(bs[1..], bs[0].End(), b);
    } else if b != bs[0] {
      TilingSeparates(bs[1..], bs[0].End(), b, c);
    }
  }

  lemma {:induction false} AddressesAscend(bs: seq<Block>, a: nat, i: nat, k: nat)
    requires TiledFrom(bs, a) && i < k < |bs|
    ensures bs[i].addr < bs[k].addr
  {
    if i == 0 {
      TilingBounds(bs[1..], bs[0].End(), bs[1..][k - 1]);
    } else {
      AddressesAscend(bs[1..], bs[0].End(), i - 1, k - 1);
    }
  }

  lemma {:induction false} NextBlock(bs: seq<Block>, a: nat, i: nat)
    requires TiledFrom(bs, a) && i < |bs|
    ensures i + 1 < |bs| ==> bs[i + 1].addr == bs[i].End() == bs[i].Next()
    ensures i + 1 == |bs| ==> bs[i].Next() == NULL
  {
    if i > 0 {
      NextBlock(bs[1..], bs[0].End(), i - 1);
    } else if |bs| > 1 {
      TilingBounds(bs[1..], bs[0].End(), bs[1]);
    }
  }

  lemma {:induction false} MallocTiles(bs: seq<Block>, n: nat, a: nat)
    requires TiledFrom(bs, a) && n % 4 == 0
    ensures TiledFrom(Malloc(bs, n).blocks, a)
  {
    if bs != [] {
      var rest := bs[1..];
      if Fits(bs[0], n) {
        assert (Take(bs[0], n) + rest)[1..] == Take(bs[0], n)[1..] + rest;
        if |Take(bs[0], n)| == 2 {
          assert (Take(bs[0], n)[1..] + rest)[1..] == rest;
          assert TiledFrom(rest, bs[0].End());
          assert bs[0].size % 4 == 0;
        } else {
          assert Take(bs[0], n)[1..] + rest == rest;
        }
      } else {
        MallocTiles(rest, n, bs[0].End());
        assert ([bs[0]] + Malloc(rest, n).blocks)[1..] == Malloc(rest, n).blocks;
      }
    }
  }

  lemma {:induction false} FreeTiles(bs: seq<Block>, p: nat, a: nat)
    requires TiledFrom(bs, a)
    ensures TiledFrom(Free(bs, p), a)
  {
    if bs == [] {
    } else if bs[0].Ptr() == p {
      var rest := bs[1..];
      if rest != [] && rest[0].free {
        assert Free(bs, p)[1..] == rest[1..];
      } else {
        assert Free(bs, p)[1..] == rest;
      }
    } else {
      FreeTiles(bs[1..], p, bs[0].End());
    }
  }

  /** Nothing is lost: payloads and headers add up to the region. */
  lemma {:induction false} BytesConserved(bs: seq<Block>, a: nat)
    requires TiledFrom(bs, a)
    ensures FreeSum(bs) + UsedSum(bs) + HEADER * |bs| == HEAP_END - a
  {
    if bs != [] {
      BytesConserved(bs[1..], bs[0].End());
    }
  }

  // ---- First fit ----------------------------------------------------------

  /** NULL exactly when nothing fits; otherwise the fitting block of lowest address. */
  lemma {:induction false} MallocIsFirstFit(bs: seq<Block>, n: nat, a: nat)
    requires TiledFrom(bs, a)
    ensures Malloc(bs, n).ptr == NULL <==> forall b :: b in bs ==> !Fits(b, n)
    ensures Malloc(bs, n).ptr == NULL ==> Malloc(bs, n).blocks == bs
    ensures Malloc(bs, n).ptr != NULL ==>
              exists b :: b in bs && Fits(b, n) && b.Ptr() == Malloc(bs, n).ptr
                          && forall c :: c in bs && Fits(c, n) ==> b.addr <= c.addr
  {
    if bs == [] {
    } else if Fits(bs[0], n) {
      forall c | c in bs ensures bs[0].addr <= c.addr {
        TilingBounds(bs, a, c);
      }
      assert bs[0] in bs;
    } else {
      MallocIsFirstFit(bs[1..], n, bs[0].End());
      assert forall b :: b in bs <==> b == bs[0] || b in bs[1..];
    }
  }

  // ---- The live map -------------------------------------------------------

  lemma {:induction false} LiveIsBlock(bs: seq<Block>, a: nat, p: nat) returns (b: Block)
    requires TiledFrom(bs, a) && p in Live(bs)
    ensures b in bs && !b.free && b.Ptr() == p && b.size == Live(bs)[p] && a + HEADER <= p
  {
    if !bs[0].free && bs[0].Ptr() == p {
      b := bs[0];
    } else {
      b := LiveIsBlock(bs[1..], bs[0].End(), p);
    }
  }

  lemma {:induction false} BlockIsLive(bs: seq<Block>, a: nat, b: Block)
    requires TiledFrom(bs, a) && b in bs && !b.free
    ensures b.Ptr() in Live(bs) && Live(bs)[b.Ptr()] == b.size
  {
    if b != bs[0] {
      BlockIsLive(bs[1..], bs[0].End(), b);
      TilingBounds(bs[1..], bs[0].End(), b);
    }
  }

  /** A successful `kmalloc` adds one new live block of at least the size asked for, and touches no other. */
  lemma {:induction false} MallocLive(bs: seq<Block>, n: nat, a: nat)
    requires TiledFrom(bs, a) && Malloc(bs, n).ptr != NULL
    ensures var g := Malloc(bs, n);
            && g.ptr !in Live(bs) && g.ptr in Live(g.blocks)
            && n <= Live(g.blocks)[g.ptr] <= n + HEADER
            && Live(g.blocks) == Live(bs)[g.ptr := Live(g.blocks)[g.ptr]]
            && a + HEADER <= g.ptr
  {
    var g := Malloc(bs, n);
    var rest := bs[1..];
    var end := bs[0].End();
    if Fits(bs[0], n) {
      var t := Take(bs[0], n);
      if |t| == 2 {
        assert g.blocks[1..] == [t[1]] + rest;
        assert g.blocks[1..][1..] == rest;
      } else {
        assert g.blocks[1..] == rest;
      }
      if g.ptr in Live(bs) {
        var b := LiveIsBlock(rest, end, g.ptr);
      }
    } else {
      MallocLive(rest, n, end);
      assert g.blocks[1..] == Malloc(rest, n).blocks;
    }
  }

  /** `kfree` of a live pointer removes that block from the live map and touches no other. */
  lemma {:induction false} FreeLive(bs: seq<Block>, p: nat, a: nat)
    requires TiledFrom(bs, a) && p in Live(bs)
    ensures Live(Free(bs, p)) == Live(bs) - {p}
  {
    var rest := bs[1..];
    if bs[0].Ptr() == p {
      if p in Live(rest) {
        var b := LiveIsBlock(rest, bs[0].End(), p);
      }
      if rest != [] && rest[0].free {
        assert Free(bs, p)[1..] == rest[1..];
      } else {
        assert Free(bs, p)[1..] == rest;
      }
    } else {
      FreeLive(rest, p, bs[0].End());
    }
  }

  /** A successful `kmalloc` replaces one fitting block in place. */
  lemma {:induction false} MallocShape(bs: seq<Block>, n: nat) returns (i: nat)
    requires Malloc(bs, n).ptr != NULL
    ensures i < |bs| && Fits(bs[i], n) && Malloc(bs, n).ptr == bs[i].Ptr()
    ensures Malloc(bs, n).blocks == bs[..i] + Take(bs[i], n) + bs[i + 1..]
    ensures forall j :: 0 <= j < i ==> !Fits(bs[j], n)
  {
    if Fits(bs[0], n) {
      i := 0;
    } else {
      var k := MallocShape(bs[1..], n);
      i := k + 1;
      assert bs[..i] == [bs[0]] + bs[1..][..k];
      assert bs[1..][k + 1..] == bs[i + 1..];
    }
  }

  lemma {:induction false} MallocAt(bs: seq<Block>, n: nat, i: nat)
    requires i <= |bs| && forall j :: 0 <= j < i ==> !Fits(bs[j], n)
    requires i < |bs| ==> Fits(bs[i], n)
    ensures i < |bs| ==> Malloc(bs, n) == Grant(bs[i].Ptr(), bs[..i] + Take(bs[i], n) + bs[i + 1..])
    ensures i == |bs| ==> Malloc(bs, n) == Grant(NULL, bs)
  {
    if i > 0 {
      MallocAt(bs[1..], n, i - 1);
      if i < |bs| {
        assert bs[..i] == [bs[0]] + bs[1..][..i - 1];
        assert bs[1..][i..] == bs[i + 1..];
      }
    }
  }

  lemma {:induction false} FreeBehind(front: seq<Block>, tail: seq<Block>, p: nat)
    requires forall b :: b in front ==> b.Ptr() != p
    ensures Free(front + tail, p) == front + Free(tail, p)
  {
    if front == [] {
      assert front + tail == tail;
    } else {
      assert (front + tail)[1..] == front[1..] + tail;
      FreeBehind(front[1..], tail, p);
    }
  }

  lemma FreeAt(bs: seq<Block>, a: nat, i: nat)
    requires TiledFrom(bs, a) && i < |bs|
    ensures Free(bs, bs[i].Ptr()) == bs[..i] + Release(bs[i], bs[i + 1..])
  {
    forall b | b in bs[..i] ensures b.Ptr() != bs[i].Ptr() {
      var j :| 0 <= j < i && bs[j] == b;
      AddressesAscend(bs, a, j, i);
    }
    assert bs == bs[..i] + bs[i..];
    assert bs[i..][1..] == bs[i + 1..];
    FreeBehind(bs[..i], bs[i..], bs[i].Ptr());
  }
}
