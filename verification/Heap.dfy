/**
 The allocator in its own memory: block headers and payloads share one array
 of words, and `kmalloc` and `kfree` rewrite headers in place.
 */
module Heap {
  import opened Machine
  import opened HeapModel

  /** The 64 KB region in 4-byte words. */
  const WORDS: nat := 16384

  /** The word at byte address `a`. A header is three words: size, next, free. */
  function W(a: nat): (w: nat)
    requires HEAP_START <= a < HEAP_END && a % 4 == 0
    ensures w < WORDS && 4 * w + HEAP_START == a
  {
    (a - HEAP_START) / 4
  }

  predicate HeaderFits(a: nat) {
    HEAP_START <= a && a + HEADER <= HEAP_END && a % 4 == 0
  }

  ghost predicate HeaderAt(m: seq<u32>, b: Block)
    requires |m| == WORDS
  {
    && HeaderFits(b.addr)
    && m[W(b.addr)] == b.size
    && m[W(b.addr) + 1] == b.Next()
    && m[W(b.addr) + 2] == if b.free then 1 else 0
  }

  ghost predicate Headers(m: seq<u32>, bs: seq<Block>)
    requires |m| == WORDS
  {
    forall b :: b in bs ==> HeaderAt(m, b)
  }

  // ---- The chain a reader follows -----------------------------------------

  /** What a reader of the chain finds: that it does not ascend to NULL, or its free and used payload bytes. */
  datatype Reading = Stuck | Totals(free: nat, used: nat) {
    predicate Within(lo: nat, hi: nat) {
      Totals? && lo <= free <= hi && used <= HEAP_SIZE
    }

    function Plus(size: nat, isFree: bool): Reading {
      match this
      case Stuck => Stuck
      case Totals(f, u) => if isFree then Totals(f + size, u) else Totals(f, u + size)
    }
  }

  /** Follows the `next` fields from `a`; totals only if they lead through strictly ascending headers to NULL. */
  ghost function ReadFrom(m: seq<u32>, a: nat): Reading
    requires |m| == WORDS
    decreases if a == NULL || a > HEAP_END then 0 else 1 + HEAP_END - a
  {
    if a == NULL then Totals(0, 0)
    else if !HeaderFits(a) then Stuck
    else
      var next := m[W(a) + 1];
      if next != NULL && next <= a then Stuck
      else ReadFrom(m, next).Plus(m[W(a)], m[W(a) + 2] != 0)
  }

  /** What `get_free_memory` and `get_used_memory` would add up in memory `m`. */
  ghost function Observe(m: seq<u32>): Reading
    requires |m| == WORDS
  {
    ReadFrom(m, HEAP_START)
  }

  function Head(bs: seq<Block>): nat {
    if bs == [] then NULL else bs[0].addr
  }

  /** The words of `m` link exactly the blocks `bs`, at ascending addresses. */
  ghost predicate Links(m: seq<u32>, bs: seq<Block>)
    requires |m| == WORDS
  {
    bs == [] ||
    (&& HeaderFits(bs[0].addr)
     && m[W(bs[0].addr)] == bs[0].size
     && m[W(bs[0].addr) + 1] == Head(bs[1..])
     && m[W(bs[0].addr) + 2] == (if bs[0].free then 1 else 0)
     && (|bs| > 1 ==> bs[0].addr < bs[1].addr)
     && Links(m, bs[1..]))
  }

  lemma {:induction false} LinksAreRead(m: seq<u32>, bs: seq<Block>)
    requires |m| == WORDS && Links(m, bs)
    ensures ReadFrom(m, Head(bs)) == Totals(FreeSum(bs), UsedSum(bs))
  {
    if bs != [] {
      LinksAreRead(m, bs[1..]);
    }
  }

  lemma {:induction false} TilingLinks(m: seq<u32>, bs: seq<Block>, a: nat)
    requires |m| == WORDS && TiledFrom(bs, a) && Headers(m, bs)
    ensures Links(m, bs)
  {
    if bs != [] {
      assert HeaderAt(m, bs[0]);
      TilingLinks(m, bs[1..], bs[0].End());
      if |bs| > 1 {
        assert HeaderAt(m, bs[1]);
      }
    }
  }

  /** Headers from address `a` on depend only on the words from `a` on. */
  lemma HeadersAbove(m: seq<u32>, after: seq<u32>, bs: seq<Block>, a: nat)
    requires |m| == |after| == WORDS && TiledFrom(bs, a) && Headers(m, bs)
    requires forall w :: 0 <= w < WORDS && 4 * w + HEAP_START >= a ==> after[w] == m[w]
    ensures Headers(after, bs)
  {
    forall b | b in bs ensures HeaderAt(after, b) {
      TilingBounds(bs, a, b);
      assert HeaderAt(m, b);
    }
  }

  /** Rewriting the size word of one block changes that size in the chain and nothing else. */
  lemma {:induction false} ResizedLinks(m: seq<u32>, bs: seq<Block>, a: nat, i: nat, s: u32)
    requires |m| == WORDS && TiledFrom(bs, a) && Headers(m, bs) && i < |bs| && HeaderFits(bs[i].addr)
    ensures Links(m[W(bs[i].addr) := s], bs[i := bs[i].(size := s)])
  {
    var after := m[W(bs[i].addr) := s];
    var rest := bs[1..];
    TilingLinks(m, bs, a);
    if i == 0 {
      HeadersAbove(m, after, rest, bs[0].End());
      TilingLinks(after, rest, bs[0].End());
      assert bs[0 := bs[0].(size := s)][1..] == rest;
    } else {
      TilingBounds(rest, bs[0].End(), bs[i]);
      ResizedLinks(m, rest, bs[0].End(), i - 1, s);
      assert bs[i := bs[i].(size := s)][1..] == rest[i - 1 := bs[i].(size := s)];
    }
  }

  // ---- What each write does -----------------------------------------------

  /** The words from byte address `lo` up to `hi` are the only ones that differ. */
  ghost predicate OnlyBetween(m: seq<u32>, after: seq<u32>, lo: nat, hi: nat)
    requires |m| == |after| == WORDS
  {
    forall w :: 0 <= w < WORDS && (4 * w + HEAP_START < lo || hi <= 4 * w + HEAP_START) ==> after[w] == m[w]
  }

  /** Writes inside one block leave the headers of all other blocks alone. */
  lemma HeadersOutside(m: seq<u32>, after: seq<u32>, bs: seq<Block>, a: nat, c: Block)
    requires |m| == |after| == WORDS && TiledFrom(bs, a) && Headers(m, bs) && c in bs
    requires OnlyBetween(m, after, c.addr, c.End())
    ensures forall b :: b in bs && b != c ==> HeaderAt(after, b)
  {
    forall b | b in bs && b != c ensures HeaderAt(after, b) {
      TilingSeparates(bs, a, b, c);
      TilingBounds(bs, a, b);
      assert HeaderAt(m, b);
    }
  }

  /** Writes inside one payload leave every header alone. */
  lemma HeadersOutsidePayload(m: seq<u32>, after: seq<u32>, bs: seq<Block>, a: nat, c: Block)
    requires |m| == |after| == WORDS && TiledFrom(bs, a) && Headers(m, bs) && c in bs
    requires OnlyBetween(m, after, c.Ptr(), c.End())
    ensures Headers(after, bs)
  {
    HeadersOutside(m, after, bs, a, c);
    assert HeaderAt(m, c);
  }

  lemma {:induction false} FreeSumOfConcat(x: seq<Block>, y: seq<Block>)
    ensures FreeSum(x + y) == FreeSum(x) + FreeSum(y)
  {
    if x == [] {
      assert x + y == y;
    } else {
      assert (x + y)[1..] == x[1..] + y;
      FreeSumOfConcat(x[1..], y);
    }
  }

  /** Replacing block `i` by `mid` changes the free total by the difference. */
  lemma FreeSumOfSplice(bs: seq<Block>, i: nat, mid: seq<Block>)
    requires i < |bs|
    ensures FreeSum(bs[..i] + mid + bs[i + 1..]) + FreeSum([bs[i]]) == FreeSum(bs) + FreeSum(mid)
  {
    assert bs == bs[..i] + [bs[i]] + bs[i + 1..];
    FreeSumOfConcat(bs[..i] + [bs[i]], bs[i + 1..]);
    FreeSumOfConcat(bs[..i], [bs[i]]);
    FreeSumOfConcat(bs[..i] + mid, bs[i + 1..]);
    FreeSumOfConcat(bs[..i], mid);
  }

  lemma TilingRead(m: seq<u32>, bs: seq<Block>)
    requires |m| == WORDS && Tiled(bs) && Headers(m, bs)
    ensures Observe(m) == Totals(FreeSum(bs), UsedSum(bs)) && UsedSum(bs) <= HEAP_SIZE
  {
    BytesConserved(bs, HEAP_START);
    TilingLinks(m, bs, HEAP_START);
    LinksAreRead(m, bs);
  }

  lemma {:induction false} UsedSumIgnoresFree(bs: seq<Block>, i: nat, s: nat)
    requires i < |bs| && bs[i].free
    ensures UsedSum(bs[i := bs[i].(size := s)]) == UsedSum(bs)
  {
    if i == 0 {
      assert bs[0 := bs[0].(size := s)][1..] == bs[1..];
    } else {
      UsedSumIgnoresFree(bs[1..], i - 1, s);
      assert bs[i := bs[i].(size := s)][1..] == bs[1..][i - 1 := bs[i].(size := s)];
    }
  }

  lemma ResizedRead(m: seq<u32>, bs: seq<Block>, i: nat, s: u32)
    requires |m| == WORDS && Tiled(bs) && Headers(m, bs) && i < |bs| && bs[i].free
    ensures HeaderFits(bs[i].addr)
    ensures var after := m[W(bs[i].addr) := s];
            && Observe(after).Totals? && Observe(after).free + bs[i].size == FreeSum(bs) + s
            && Observe(after).used <= HEAP_SIZE
  {
    assert HeaderAt(m, bs[i]);
    var c := bs[i].(size := s);
    ResizedLinks(m, bs, HEAP_START, i, s);
    UsedSumIgnoresFree(bs, i, s);
    BytesConserved(bs, HEAP_START);
    LinksAreRead(m[W(bs[i].addr) := s], bs[i := c]);
    assert bs[i := c] == bs[..i] + [c] + bs[i + 1..];
    FreeSumOfSplice(bs, i, [c]);
    assert [bs[i]][1..] == [] && [c][1..] == [];
    assert bs[i := c][0].addr == HEAP_START;
  }

  /** Block `i` gives way to `mid`, whose headers are written inside it; `tail` is what remains behind. */
  lemma HeadersOfSplice(m: seq<u32>, after: seq<u32>, bs: seq<Block>, a: nat, i: nat, mid: seq<Block>, tail: seq<Block>)
    requires |m| == |after| == WORDS && TiledFrom(bs, a) && Headers(m, bs) && i < |bs|
    requires OnlyBetween(m, after, bs[i].addr, bs[i].End()) && Headers(after, mid)
    requires forall b :: b in tail ==> b in bs[i + 1..]
    ensures Headers(after, bs[..i] + mid + tail)
  {
    HeadersOutside(m, after, bs, a, bs[i]);
    forall b | b in bs[..i] + mid + tail ensures HeaderAt(after, b) {
      if b in bs[..i] {
        var j :| 0 <= j < i && bs[j] == b;
        AddressesAscend(bs, a, j, i);
      } else if b in tail {
        var j :| i < j < |bs| && bs[j] == b;
        AddressesAscend(bs, a, i, j);
      }
    }
  }

  ghost predicate SamePayload(m: seq<u32>, after: seq<u32>, p: nat, size: nat)
    requires |m| == |after| == WORDS
  {
    forall w :: 0 <= w < WORDS && p <= 4 * w + HEAP_START < p + size ==> after[w] == m[w]
  }

  /** Every live payload is as it was. */
  ghost predicate PayloadsKept(m: seq<u32>, after: seq<u32>, live: map<nat, nat>)
    requires |m| == |after| == WORDS
  {
    forall p :: p in live ==> SamePayload(m, after, p, live[p])
  }

  lemma WritesInFreeBlock(m: seq<u32>, after: seq<u32>, bs: seq<Block>, c: Block)
    requires |m| == |after| == WORDS && Tiled(bs) && c in bs
    requires OnlyBetween(m, after, c.addr, if c.free then c.End() else c.Ptr())
    ensures PayloadsKept(m, after, Live(bs))
  {
    forall p | p in Live(bs) ensures SamePayload(m, after, p, Live(bs)[p]) {
      var b := LiveIsBlock(bs, HEAP_START, p);
      TilingSeparates(bs, HEAP_START, b, c);
    }
  }

  // ---- The writes of kmalloc and kfree, one after the other ----------------

  lemma SplitRoom(bs: seq<Block>, b: Block, n: nat)
    requires Tiled(bs) && b in bs && n % 4 == 0 && b.size > n + HEADER
    ensures HeaderFits(b.addr) && b.End() <= HEAP_END
    ensures HeaderFits(b.Ptr() + n) && b.Ptr() + n + HEADER < b.End()
  {
    TilingBounds(bs, HEAP_START, b);
    MultiplesOfFour(b.addr, b.size, n);
  }

  lemma MultiplesOfFour(a: nat, size: nat, n: nat)
    requires a % 4 == 0 && size % 4 == 0 && n % 4 == 0 && size > n + HEADER
    ensures (a + HEADER + n) % 4 == 0 && size > n + HEADER + 3
  {
    var (i, j, k) := (a / 4, size / 4, n / 4);
    assert a == 4 * i && size == 4 * j && n == 4 * k;
    assert a + HEADER + n == 4 * (i + 3 + k);
  }

  function Halves(b: Block, n: nat, free: bool): seq<Block>
    requires b.size > n + HEADER
  {
    [Block(b.addr, n, free), Block(b.Ptr() + n, b.size - n - HEADER, true)]
  }

  lemma HalvesWritten(m: seq<u32>, b: Block, n: nat)
    requires |m| == WORDS && b.size > n + HEADER && HeaderFits(b.addr) && HeaderFits(b.Ptr() + n) && b.End() <= HEAP_END
    requires var w := W(b.addr); m[w] == n && m[w + 1] == b.Ptr() + n && m[w + 2] == 1
    requires var w := W(b.Ptr() + n); m[w] == b.size - n - HEADER && m[w + 1] == b.Next() && m[w + 2] == 1
    ensures Headers(m, Halves(b, n, true))
  {
    var h := Halves(b, n, true);
    assert HeaderAt(m, h[0]);
    assert HeaderAt(m, h[1]);
  }

  lemma {:induction false} TailTiles(bs: seq<Block>, a: nat, i: nat)
    requires TiledFrom(bs, a) && i < |bs|
    ensures TiledFrom(bs[i + 1..], bs[i].End()) && bs[i].addr % 4 == 0
  {
    if i > 0 {
      TailTiles(bs[1..], bs[0].End(), i - 1);
      assert bs[1..][i..] == bs[i + 1..];
    }
  }

  /** The blocks from `i` on may be tiled anew. */
  lemma {:induction false} RetileTail(bs: seq<Block>, a: nat, i: nat, tail: seq<Block>)
    requires TiledFrom(bs, a) && i < |bs| && TiledFrom(tail, bs[i].addr)
    ensures TiledFrom(bs[..i] + tail, a)
  {
    if i == 0 {
      assert bs[..0] + tail == tail;
    } else {
      RetileTail(bs[1..], bs[0].End(), i - 1, tail);
      assert (bs[..i] + tail)[1..] == bs[1..][..i - 1] + tail;
    }
  }

  lemma TileTwo(b: Block, c: Block, rest: seq<Block>)
    requires b.addr % 4 == 0 && c.addr == b.End() && c.addr % 4 == 0 && TiledFrom(rest, c.End())
    ensures TiledFrom([b, c] + rest, b.addr)
  {
    assert ([b, c] + rest)[1..] == [c] + rest;
    assert ([c] + rest)[1..] == rest;
  }

  lemma TileOne(b: Block, rest: seq<Block>)
    requires b.addr % 4 == 0 && TiledFrom(rest, b.End())
    ensures TiledFrom([b] + rest, b.addr)
  {
    assert ([b] + rest)[1..] == rest;
  }

  lemma SplitTiles(bs: seq<Block>, i: nat, n: nat)
    requires Tiled(bs) && i < |bs| && bs[i].free && bs[i].size > n + HEADER && n % 4 == 0
    ensures Tiled(bs[..i] + Halves(bs[i], n, true) + bs[i + 1..])
    ensures FreeSum(bs[..i] + Halves(bs[i], n, true) + bs[i + 1..]) + HEADER == FreeSum(bs)
  {
    var h := Halves(bs[i], n, true);
    TailTiles(bs, HEAP_START, i);
    TileTwo(h[0], h[1], bs[i + 1..]);
    RetileTail(bs, HEAP_START, i, h + bs[i + 1..]);
    assert bs[..i] + h + bs[i + 1..] == bs[..i] + (h + bs[i + 1..]);
    FreeSumOfSplice(bs, i, h);
    FreeSumOfConcat([h[0]], [h[1]]);
    assert h == [h[0]] + [h[1]];
    FreeSumOfOne(h[0]);
    FreeSumOfOne(h[1]);
    FreeSumOfOne(bs[i]);
  }

  lemma FreeSumOfOne(b: Block)
    ensures FreeSum([b]) == if b.free then b.size else 0
  {
    assert [b][1..] == [];
  }

  lemma FlagTiles(bs: seq<Block>, i: nat, free: bool)
    requires Tiled(bs) && i < |bs|
    ensures Tiled(bs[..i] + [bs[i].(free := free)] + bs[i + 1..])
    ensures FreeSum(bs[..i] + [bs[i].(free := free)] + bs[i + 1..]) + (if bs[i].free then bs[i].size else 0)
            == FreeSum(bs) + (if free then bs[i].size else 0)
  {
    var c := bs[i].(free := free);
    TailTiles(bs, HEAP_START, i);
    TileOne(c, bs[i + 1..]);
    RetileTail(bs, HEAP_START, i, [c] + bs[i + 1..]);
    assert bs[..i] + [c] + bs[i + 1..] == bs[..i] + ([c] + bs[i + 1..]);
    FreeSumOfSplice(bs, i, [c]);
    FreeSumOfOne(c);
    FreeSumOfOne(bs[i]);
  }

  /** One word of the remainder's header, written into the payload of the block to be split. */
  lemma RemainderWord(m: seq<u32>, after: seq<u32>, bs: seq<Block>, b: Block, n: nat, field: nat, v: u32)
    requires |m| == WORDS && Tiled(bs) && Headers(m, bs) && b in bs && field < 3
    requires HeaderFits(b.Ptr() + n) && b.Ptr() + n + HEADER < b.End()
    requires after == m[W(b.Ptr() + n) + field := v]
    ensures Headers(after, bs) && Observe(after).Within(0, FreeSum(bs))
  {
    HeadersOutsidePayload(m, after, bs, HEAP_START, b);
    TilingRead(after, bs);
  }

  /** Memory after the three stores that write the remainder's header. */
  ghost function Prepared(m: seq<u32>, b: Block, n: nat): (after: seq<u32>)
    requires |m| == WORDS && HeaderFits(b.Ptr() + n) && b.End() <= HEAP_END && b.size > n + HEADER
    ensures |after| == WORDS
  {
    var w := W(b.Ptr() + n);
    m[w := b.size - n - HEADER][w + 1 := b.Next()][w + 2 := 1]
  }

  /** Memory after the two stores that cut the block and link the remainder behind it. */
  ghost function Cut(m: seq<u32>, b: Block, n: nat): (after: seq<u32>)
    requires |m| == WORDS && HeaderFits(b.addr) && b.End() <= HEAP_END && b.size > n
    ensures |after| == WORDS
  {
    m[W(b.addr) := n][W(b.addr) + 1 := b.Ptr() + n]
  }

  lemma CutStates(m: seq<u32>, bs: seq<Block>, i: nat, n: nat)
    requires |m| == WORDS && Tiled(bs) && Headers(m, bs) && i < |bs| && bs[i].free
    requires n % 4 == 0 && bs[i].size > n + HEADER
    requires HeaderFits(bs[i].addr) && HeaderFits(bs[i].Ptr() + n) && bs[i].End() <= HEAP_END
    requires var w := W(bs[i].Ptr() + n);
             m[w] == bs[i].size - n - HEADER && m[w + 1] == bs[i].Next() && m[w + 2] == 1
    ensures var after := bs[..i] + Halves(bs[i], n, true) + bs[i + 1..];
            && Observe(m[W(bs[i].addr) := n]).Within(0, FreeSum(bs))
            && Tiled(after) && Headers(Cut(m, bs[i], n), after)
            && Observe(Cut(m, bs[i], n)).Within(0, FreeSum(bs)) && FreeSum(after) <= FreeSum(bs)
  {
    ResizedRead(m, bs, i, n);
    SplitTiles(bs, i, n);
    assert HeaderAt(m, bs[i]);
    var m5 := Cut(m, bs[i], n);
    HalvesWritten(m5, bs[i], n);
    HeadersOfSplice(m, m5, bs, HEAP_START, i, Halves(bs[i], n, true), bs[i + 1..]);
    TilingRead(m5, bs[..i] + Halves(bs[i], n, true) + bs[i + 1..]);
  }

  /** The memory states a split goes through, store by store. */
  ghost function SplitStates(m: seq<u32>, b: Block, n: nat): (states: seq<seq<u32>>)
    requires |m| == WORDS && HeaderFits(b.addr) && HeaderFits(b.Ptr() + n) && b.End() <= HEAP_END && b.size > n + HEADER
    ensures |states| == 5 && |states[4]| == WORDS
  {
    var w := W(b.Ptr() + n);
    var p := Prepared(m, b, n);
    [ m[w := b.size - n - HEADER], m[w := b.size - n - HEADER][w + 1 := b.Next()], p,
      p[W(b.addr) := n], Cut(p, b, n) ]
  }

  lemma PreparedIsRead(m: seq<u32>, bs: seq<Block>, b: Block, n: nat, states: seq<seq<u32>>)
    requires |m| == WORDS && Tiled(bs) && Headers(m, bs) && b in bs && b.size > n + HEADER
    requires HeaderFits(b.addr) && HeaderFits(b.Ptr() + n) && b.Ptr() + n + HEADER < b.End() <= HEAP_END
    requires states == SplitStates(m, b, n)
    ensures Observe(states[0]).Within(0, FreeSum(bs))
    ensures Observe(states[1]).Within(0, FreeSum(bs))
    ensures Observe(states[2]).Within(0, FreeSum(bs))
    ensures Headers(states[2], bs)
  {
    RemainderWord(m, states[0], bs, b, n, 0, b.size - n - HEADER);
    RemainderWord(states[0], states[1], bs, b, n, 1, b.Next());
    RemainderWord(states[1], states[2], bs, b, n, 2, 1);
  }

  lemma SplitIsRead(m: seq<u32>, bs: seq<Block>, i: nat, n: nat, states: seq<seq<u32>>)
    requires |m| == WORDS && Tiled(bs) && Headers(m, bs) && i < |bs| && bs[i].free
    requires n % 4 == 0 && bs[i].size > n + HEADER
    requires HeaderFits(bs[i].addr) && HeaderFits(bs[i].Ptr() + n) && bs[i].Ptr() + n + HEADER < bs[i].End() <= HEAP_END
    requires states == SplitStates(m, bs[i], n)
    ensures var after := bs[..i] + Halves(bs[i], n, true) + bs[i + 1..];
            Tiled(after) && Headers(states[4], after) && FreeSum(after) <= FreeSum(bs)
    ensures Observe(states[0]).Within(0, FreeSum(bs))
    ensures Observe(states[1]).Within(0, FreeSum(bs))
    ensures Observe(states[2]).Within(0, FreeSum(bs))
    ensures Observe(states[3]).Within(0, FreeSum(bs))
    ensures Observe(states[4]).Within(0, FreeSum(bs))
  {
    PreparedIsRead(m, bs, bs[i], n, states);
    CutStates(states[2], bs, i, n);
  }

  /** Rewriting the `free` word of block `i`. */
  lemma FlagWritten(m: seq<u32>, bs: seq<Block>, i: nat, free: bool)
    requires |m| == WORDS && Tiled(bs) && Headers(m, bs) && i < |bs| && HeaderFits(bs[i].addr)
    ensures var after := m[W(bs[i].addr) + 2 := if free then 1 else 0];
            var flagged := bs[..i] + [bs[i].(free := free)] + bs[i + 1..];
            && Tiled(flagged) && Headers(after, flagged)
            && Observe(after).Within(FreeSum(flagged), FreeSum(flagged))
            && FreeSum(flagged) + (if bs[i].free then bs[i].size else 0)
                == FreeSum(bs) + (if free then bs[i].size else 0)
  {
    var after := m[W(bs[i].addr) + 2 := if free then 1 else 0];
    var flagged := bs[..i] + [bs[i].(free := free)] + bs[i + 1..];
    FlagTiles(bs, i, free);
    assert HeaderAt(m, bs[i]);
    assert HeaderAt(after, bs[i].(free := free));
    HeadersOfSplice(m, after, bs, HEAP_START, i, [bs[i].(free := free)], bs[i + 1..]);
    TilingRead(after, flagged);
  }

  lemma MergeTiles(bs: seq<Block>, i: nat)
    requires Tiled(bs) && i + 1 < |bs| && bs[i].free && bs[i + 1].free
    ensures Tiled(bs[..i] + [Merged(bs[i], bs[i + 1])] + bs[i + 1..][1..])
    ensures FreeSum(bs[..i] + [Merged(bs[i], bs[i + 1])] + bs[i + 1..][1..]) == FreeSum(bs) + HEADER
  {
    hide FreeSum, TiledFrom;
    var (b, c) := (bs[i], bs[i + 1]);
    var (front, tail) := (bs[..i], bs[i + 1..][1..]);
    NextBlock(bs, HEAP_START, i);
    TailTiles(bs, HEAP_START, i);
    TailTiles(bs, HEAP_START, i + 1);
    TileOne(Merged(b, c), tail);
    RetileTail(bs, HEAP_START, i, [Merged(b, c)] + tail);
    assert front + [Merged(b, c)] + tail == front + ([Merged(b, c)] + tail);
    MergeSum(bs, i);
  }

  lemma MergeSum(bs: seq<Block>, i: nat)
    requires i + 1 < |bs| && bs[i].free && bs[i + 1].free
    ensures FreeSum(bs[..i] + [Merged(bs[i], bs[i + 1])] + bs[i + 1..][1..]) == FreeSum(bs) + HEADER
  {
    hide FreeSum;
    var (b, c) := (bs[i], bs[i + 1]);
    var (front, tail) := (bs[..i], bs[i + 1..][1..]);
    assert front + [Merged(b, c)] + tail == front + ([Merged(b, c)] + tail);
    assert bs == front + ([b] + ([c] + tail));
    FreeSumOfConcat(front, [b] + ([c] + tail));
    FreeSumOfConcat([b], [c] + tail);
    FreeSumOfConcat([c], tail);
    FreeSumOfConcat(front, [Merged(b, c)] + tail);
    FreeSumOfConcat([Merged(b, c)], tail);
    FreeSumOfOne(b);
    FreeSumOfOne(c);
    FreeSumOfOne(Merged(b, c));
  }

  /** The memory states a merge goes through, store by store. */
  ghost function MergeStates(m: seq<u32>, b: Block, c: Block): (states: seq<seq<u32>>)
    requires |m| == WORDS && HeaderFits(b.addr) && c.addr == b.End() && c.End() <= HEAP_END
    ensures |states| == 2 && |states[1]| == WORDS
  {
    [ m[W(b.addr) := Merged(b, c).size], m[W(b.addr) := Merged(b, c).size][W(b.addr) + 1 := c.Next()] ]
  }

  /** The two stores that merge block `i` with the free block behind it. */
  lemma MergeHeaders(m: seq<u32>, bs: seq<Block>, i: nat)
    requires |m| == WORDS && Tiled(bs) && Headers(m, bs) && i + 1 < |bs| && bs[i].free && bs[i + 1].free
    requires HeaderFits(bs[i].addr) && bs[i + 1].addr == bs[i].End() && bs[i + 1].End() <= HEAP_END
    ensures var after := bs[..i] + [Merged(bs[i], bs[i + 1])] + bs[i + 1..][1..];
            && Tiled(after) && Headers(MergeStates(m, bs[i], bs[i + 1])[1], after)
            && FreeSum(after) == FreeSum(bs) + HEADER
  {
    var (b, c) := (bs[i], bs[i + 1]);
    var states := MergeStates(m, b, c);
    MergeTiles(bs, i);
    assert HeaderAt(m, b);
    assert HeaderAt(states[1], Merged(b, c));
    HeadersOfSplice(m, states[1], bs, HEAP_START, i, [Merged(b, c)], bs[i + 1..][1..]);
  }

  /** Between the two stores the swallowed block counts twice; never more. */
  lemma MergeIsRead(m: seq<u32>, bs: seq<Block>, i: nat, states: seq<seq<u32>>)
    requires |m| == WORDS && Tiled(bs) && Headers(m, bs) && i + 1 < |bs| && bs[i].free && bs[i + 1].free
    requires HeaderFits(bs[i].addr) && bs[i + 1].addr == bs[i].End() && bs[i + 1].End() <= HEAP_END
    requires states == MergeStates(m, bs[i], bs[i + 1])
    ensures Observe(states[0]).Within(FreeSum(bs), FreeSum(bs) + bs[i + 1].size + HEADER)
    ensures Observe(states[1]).Within(FreeSum(bs), FreeSum(bs) + HEADER)
  {
    var (b, c) := (bs[i], bs[i + 1]);
    assert Observe(states[0]).Within(FreeSum(bs), FreeSum(bs) + c.size + HEADER) by {
      ResizedRead(m, bs, i, Merged(b, c).size);
    }
    assert Observe(states[1]).Within(FreeSum(bs), FreeSum(bs) + HEADER) by {
      MergeHeaders(m, bs, i);
      TilingRead(states[1], bs[..i] + [Merged(b, c)] + bs[i + 1..][1..]);
    }
  }

  lemma {:induction false} FreeSumCovers(bs: seq<Block>, i: nat)
    requires i < |bs| && bs[i].free
    ensures bs[i].size <= FreeSum(bs)
  {
    if i > 0 {
      FreeSumCovers(bs[1..], i - 1);
    }
  }

  /** While block `i` is freed, the free total stays between the old one and the new one plus the old one. */
  lemma MergeIsBounded(m: seq<u32>, before: seq<Block>, marked: seq<Block>, i: nat, states: seq<seq<u32>>)
    requires |m| == WORDS && Tiled(marked) && Headers(m, marked) && i + 1 < |marked| && marked[i].free
             && marked[i + 1].free
    requires HeaderFits(marked[i].addr) && marked[i + 1].addr == marked[i].End() && marked[i + 1].End() <= HEAP_END
    requires states == MergeStates(m, marked[i], marked[i + 1])
    requires i + 1 < |before| && before[i + 1] == marked[i + 1] && FreeSum(before) <= FreeSum(marked)
    ensures var total := FreeSum(marked[..i] + [Merged(marked[i], marked[i + 1])] + marked[i + 1..][1..]);
            && FreeSum(marked) <= total
            && Observe(states[0]).Within(FreeSum(before), total + FreeSum(before))
            && Observe(states[1]).Within(FreeSum(before), total + FreeSum(before))
  {
    MergeIsRead(m, marked, i, states);
    MergeTiles(marked, i);
    FreeSumCovers(before, i + 1);
  }

  /** The free bytes of two tilings together. */
  lemma TotalsAreBounded(before: seq<Block>, after: seq<Block>)
    requires Tiled(before) && Tiled(after)
    ensures FreeSum(before) + FreeSum(after) <= READING_MAX
  {
    hide TiledFrom, FreeSum, UsedSum;
    BytesConserved(before, HEAP_START);
    BytesConserved(after, HEAP_START);
  }

  class KernelHeap {
    const mem: array<u32>

    /** The blocks the headers in `mem` describe. */
    ghost var blocks: seq<Block>

    /** What an interrupt arriving after each store would read. */
    ghost var seen: seq<Reading>

    ghost predicate Formed()
      reads this, mem
    {
      mem.Length == WORDS && Tiled(blocks) && Headers(mem[..], blocks)
    }

    /** And every interrupt so far found a chain to NULL, with at most 128 KB free. */
    ghost predicate Valid()
      reads this, mem
    {
      Formed() && SeenWithin(0, 0, READING_MAX)
    }

    /** `memory_init`. */
    constructor ()
      ensures Valid() && fresh(mem)
      ensures blocks == INITIAL && seen == []
    {
      mem := new u32[WORDS](_ => 0);
      blocks := INITIAL;
      seen := [];
      new;
      mem[0] := HEAP_SIZE - HEADER;
      mem[1] := NULL;
      mem[2] := 1;
      assert INITIAL[1..] == [];
    }

    method Store(a: nat, field: nat, v: u32)
      requires mem.Length == WORDS && HeaderFits(a) && field < 3
      modifies this`seen, mem
      ensures mem[..] == old(mem[..])[W(a) + field := v]
      ensures seen == old(seen) + [Observe(mem[..])]
    {
      mem[W(a) + field] := v;
      seen := seen + [Observe(mem[..])];
    }

    /** All memory states that came up since `from` can be walked, with a free total in the range. */
    ghost predicate SeenWithin(from: nat, lo: nat, hi: nat)
      reads this
    {
      forall j :: from <= j < |seen| ==> seen[j].Within(lo, hi)
    }

    method StoreHeader(a: nat, size: u32, next: u32, free: u32)
      requires mem.Length == WORDS && HeaderFits(a)
      modifies this`seen, mem
      ensures var m: seq<u32> := old(mem[..]);
              var w := W(a);
              && mem[..] == m[w := size][w + 1 := next][w + 2 := free]
              && seen == old(seen) + [Observe(m[w := size]), Observe(m[w := size][w + 1 := next]), Observe(mem[..])]
    {
      Store(a, 0, size);
      Store(a, 1, next);
      Store(a, 2, free);
    }

    method StoreCut(a: nat, size: u32, next: u32)
      requires mem.Length == WORDS && HeaderFits(a)
      modifies this`seen, mem
      ensures var m: seq<u32> := old(mem[..]);
              var w := W(a);
              && mem[..] == m[w := size][w + 1 := next]
              && seen == old(seen) + [Observe(m[w := size]), Observe(mem[..])]
    {
      Store(a, 0, size);
      Store(a, 1, next);
    }

    /** The five stores that cut block `b` after `size` payload bytes. */
    method StoreSplit(current: nat, size: u32, ghost b: Block)
      requires mem.Length == WORDS && HeaderAt(mem[..], b) && b.addr == current && b.size > size + HEADER
      requires HeaderFits(b.Ptr() + size) && b.Ptr() + size + HEADER < b.End() <= HEAP_END
      modifies this`seen, mem
      ensures mem[..] == SplitStates(old(mem[..]), b, size)[4]
      ensures var s := SplitStates(old(mem[..]), b, size);
              seen == old(seen) + [Observe(s[0]), Observe(s[1]), Observe(s[2]), Observe(s[3]), Observe(s[4])]
    {
      hide Observe;
      var newBlock := current + HEADER + size;
      StoreHeader(newBlock, mem[W(current)] - size - HEADER, mem[W(current) + 1], 1);
      StoreCut(current, size, newBlock);
    }

    /** Cuts the free block `current` after `size` payload bytes. */
    method Split(current: nat, size: u32, ghost i: nat)
      requires Formed() && i < |blocks| && blocks[i].addr == current && blocks[i].free
      requires size % 4 == 0 && blocks[i].size > size + HEADER
      modifies this, mem
      ensures Formed()
      ensures blocks == old(blocks[..i] + Halves(blocks[i], size, true) + blocks[i + 1..])
      ensures OnlyBetween(old(mem[..]), mem[..], current, old(blocks[i].End()))
      ensures FreeSum(blocks) <= FreeSum(old(blocks))
      ensures old(seen) <= seen && SeenWithin(|old(seen)|, 0, FreeSum(old(blocks)))
    {
      hide Observe, Tiled, Halves;
      SplitRoom(blocks, blocks[i], size);
      SplitIsRead(mem[..], blocks, i, size, SplitStates(mem[..], blocks[i], size));
      StoreSplit(current, size, blocks[i]);
      blocks := blocks[..i] + Halves(blocks[i], size, true) + blocks[i + 1..];
    }

    method SetFree(current: nat, free: bool, ghost i: nat)
      requires Formed() && i < |blocks| && blocks[i].addr == current && HeaderFits(current)
      modifies this, mem
      ensures Formed()
      ensures blocks == old(blocks[..i] + [blocks[i].(free := free)] + blocks[i + 1..])
      ensures OnlyBetween(old(mem[..]), mem[..], current, current + HEADER)
      ensures |seen| == |old(seen)| + 1 && old(seen) <= seen
      ensures SeenWithin(|old(seen)|, FreeSum(blocks), FreeSum(blocks))
      ensures FreeSum(blocks) + old(if blocks[i].free then blocks[i].size else 0)
              == old(FreeSum(blocks)) + if free then old(blocks[i].size) else 0
    {
      FlagWritten(mem[..], blocks, i, free);
      Store(current, 2, if free then 1 else 0);
      blocks := blocks[..i] + [blocks[i].(free := free)] + blocks[i + 1..];
    }

    /** Gives the free block `current` to a caller, cut to size if a remainder is worth a header. */
    method TakeBlock(current: nat, size: u32, ghost i: nat)
      requires Formed() && i < |blocks| && blocks[i].addr == current && HeaderFits(current)
      requires size % 4 == 0 && Fits(blocks[i], size)
      modifies this, mem
      ensures Formed()
      ensures blocks == old(blocks[..i] + Take(blocks[i], size) + blocks[i + 1..])
      ensures OnlyBetween(old(mem[..]), mem[..], current, old(blocks[i].End()))
      ensures old(seen) <= seen && SeenWithin(|old(seen)|, 0, FreeSum(old(blocks)))
    {
      assert HeaderAt(mem[..], blocks[i]);
      if mem[W(current)] > size + HEADER {
        Split(current, size, i);
      }
      SetFree(current, false, i);
    }

    /** First fit. */
    method Kmalloc(n: u32) returns (p: nat)
      requires Valid()
      modifies this, mem
      ensures Valid()
      ensures p == Malloc(old(blocks), RoundUp(n)).ptr
      ensures blocks == Malloc(old(blocks), RoundUp(n)).blocks
      ensures PayloadsKept(old(mem[..]), mem[..], Live(old(blocks)))
      ensures old(seen) <= seen && SeenWithin(|old(seen)|, 0, FreeSum(old(blocks)))
              && FreeSum(old(blocks)) <= READING_MAX
    {
      TotalsAreBounded(blocks, blocks);
      var size := RoundUp(n);
      RoundUpAligned(n);
      var current := HEAP_START;
      ghost var i := 0;
      while current != NULL
        invariant current != NULL ==> i < |blocks| && blocks[i].addr == current
        invariant current == NULL ==> i == |blocks|
        invariant i <= |blocks| && forall j :: 0 <= j < i ==> !Fits(blocks[j], size)
        invariant blocks == old(blocks) && mem[..] == old(mem[..]) && seen == old(seen)
        decreases |blocks| - i
      {
        assert HeaderAt(mem[..], blocks[i]);
        if mem[W(current) + 2] != 0 && mem[W(current)] >= size {
          MallocAt(blocks, size, i);
          TakeBlock(current, size, i);
          WritesInFreeBlock(old(mem[..]), mem[..], old(blocks), old(blocks)[i]);
          return current + HEADER;
        }
        NextBlock(blocks, HEAP_START, i);
        current := mem[W(current) + 1];
        i := i + 1;
      }
      MallocAt(blocks, size, i);
      p := NULL;
    }

    /** Absorbs the block `c` behind `b`. */
    method StoreMerge(block: nat, ghost b: Block, ghost c: Block)
      requires mem.Length == WORDS && HeaderAt(mem[..], b) && HeaderAt(mem[..], c)
      requires b.addr == block && b.Next() == b.End() == c.addr && c.End() <= HEAP_END
      modifies this`seen, mem
      ensures mem[..] == MergeStates(old(mem[..]), b, c)[1]
      ensures var states := MergeStates(old(mem[..]), b, c);
              seen == old(seen) + [Observe(states[0]), Observe(states[1])]
    {
      var next := mem[W(block) + 1];
      StoreCut(block, mem[W(block)] + mem[W(next)] + HEADER, mem[W(next) + 1]);
    }

    /** Merges the free block `block` with the free block behind it; `before` is the heap of the caller. */
    method MergeNext(block: nat, ghost i: nat, ghost before: seq<Block>)
      requires Formed() && i + 1 < |blocks| && blocks[i].free && blocks[i + 1].free
      requires blocks[i].addr == block && HeaderFits(block)
      requires blocks[i].Next() == blocks[i].End() == blocks[i + 1].addr && blocks[i + 1].End() <= HEAP_END
      requires i + 1 < |before| && before[i + 1] == blocks[i + 1] && FreeSum(before) <= FreeSum(blocks)
      modifies this, mem
      ensures Formed()
      ensures blocks == old(blocks[..i] + [Merged(blocks[i], blocks[i + 1])] + blocks[i + 1..][1..])
      ensures OnlyBetween(old(mem[..]), mem[..], block, block + HEADER)
      ensures old(seen) <= seen
      ensures SeenWithin(|old(seen)|, FreeSum(before), FreeSum(blocks) + FreeSum(before))
      ensures FreeSum(old(blocks)) <= FreeSum(blocks)
    {
      ghost var (b, c) := (blocks[i], blocks[i + 1]);
      MergeHeaders(mem[..], blocks, i);
      MergeIsBounded(mem[..], before, blocks, i, MergeStates(mem[..], b, c));
      StoreMerge(block, b, c);
      blocks := blocks[..i] + [Merged(b, c)] + blocks[i + 1..][1..];
    }

    /** `block->next && block->next->free` */
    method NextIsFree(block: nat, ghost i: nat) returns (free: bool)
      requires Formed() && i < |blocks| && blocks[i].addr == block
      ensures HeaderFits(block)
      ensures free <==> i + 1 < |blocks| && blocks[i + 1].free
      ensures i + 1 < |blocks| ==>
                blocks[i].Next() == blocks[i].End() == blocks[i + 1].addr && blocks[i + 1].End() <= HEAP_END
    {
      NextBlock(blocks, HEAP_START, i);
      assert HeaderAt(mem[..], blocks[i]);
      var next := mem[W(block) + 1];
      if next == NULL {
        free := false;
      } else {
        TilingBounds(blocks, HEAP_START, blocks[i + 1]);
        assert HeaderAt(mem[..], blocks[i + 1]);
        free := mem[W(next) + 2] != 0;
      }
    }

    /** Sets block `i` free and merges it with the block behind it, once. */
    method ReleaseBlock(block: nat, ghost i: nat)
      requires Formed() && i < |blocks| && !blocks[i].free && blocks[i].addr == block && HeaderFits(block)
      modifies this, mem
      ensures Formed()
      ensures blocks == old(blocks[..i] + Release(blocks[i], blocks[i + 1..]))
      ensures OnlyBetween(old(mem[..]), mem[..], block, block + HEADER)
      ensures old(seen) <= seen
      ensures SeenWithin(|old(seen)|, FreeSum(old(blocks)), FreeSum(blocks) + FreeSum(old(blocks)))
    {
      SetFree(block, true, i);
      ghost var marked := blocks;
      assert marked[..i] == old(blocks)[..i] && marked[i + 1..] == old(blocks)[i + 1..];
      var merge := NextIsFree(block, i);
      if merge {
        assert marked[i + 1] == old(blocks)[i + 1] == old(blocks)[i + 1..][0];
        MergeNext(block, i, old(blocks));
      }
    }

    /** Frees a live block and merges it with the block behind it, once. */
    method Kfree(ptr: nat)
      requires Valid() && (ptr == NULL || ptr in Live(blocks))
      modifies this, mem
      ensures Valid()
      ensures blocks == if ptr == NULL then old(blocks) else Free(old(blocks), ptr)
      ensures PayloadsKept(old(mem[..]), mem[..], Live(old(blocks)))
      ensures old(seen) <= seen
      ensures SeenWithin(|old(seen)|, FreeSum(old(blocks)), FreeSum(blocks) + FreeSum(old(blocks)))
      ensures FreeSum(blocks) + FreeSum(old(blocks)) <= READING_MAX
    {
      if ptr == NULL {
        TotalsAreBounded(blocks, blocks);
        return;
      }
      ghost var b := LiveIsBlock(blocks, HEAP_START, ptr);
      ghost var i :| 0 <= i < |blocks| && blocks[i] == b;
      FreeAt(blocks, HEAP_START, i);
      assert HeaderAt(mem[..], b);
      ReleaseBlock(ptr - HEADER, i);
      TotalsAreBounded(old(blocks), blocks);
      WritesInFreeBlock(old(mem[..]), mem[..], old(blocks), b);
    }

    /** A client stores a word into a payload it holds. */
    method StorePayload(p: nat, offset: nat, v: u32)
      requires Valid() && p in Live(blocks) && offset % 4 == 0 && offset + 4 <= Live(blocks)[p]
      modifies mem
      ensures Valid()
      ensures HEAP_START <= p + offset < HEAP_END && (p + offset) % 4 == 0
      ensures mem[..] == old(mem[..])[W(p + offset) := v]
      ensures forall q :: q in Live(blocks) && q != p ==> SamePayload(old(mem[..]), mem[..], q, Live(blocks)[q])
    {
      ghost var b := LiveIsBlock(blocks, HEAP_START, p);
      TilingBounds(blocks, HEAP_START, b);
      SumOfMultiples(b.addr, offset);
      mem[W(p + offset)] := v;
      HeadersOutsidePayload(old(mem[..]), mem[..], blocks, HEAP_START, b);
      forall q | q in Live(blocks) && q != p ensures SamePayload(old(mem[..]), mem[..], q, Live(blocks)[q]) {
        var c := LiveIsBlock(blocks, HEAP_START, q);
        TilingSeparates(blocks, HEAP_START, b, c);
      }
    }

    /** Adds up the free payload bytes; also called from the timer interrupt, in whatever state it finds the memory. */
    method GetFreeMemory() returns (freeMem: u32)
      requires mem.Length == WORDS && Observe(mem[..]).Totals? && Observe(mem[..]).free < U32_LIMIT
      ensures freeMem == Observe(mem[..]).free
    {
      freeMem := 0;
      var current := HEAP_START;
      while current != NULL
        invariant ReadFrom(mem[..], current).Totals?
        invariant freeMem + ReadFrom(mem[..], current).free == Observe(mem[..]).free
        decreases if current == NULL || current > HEAP_END then 0 else 1 + HEAP_END - current
      {
        if mem[W(current) + 2] != 0 {
          freeMem := freeMem + mem[W(current)];
        }
        current := mem[W(current) + 1];
      }
    }

    method GetUsedMemory() returns (usedMem: u32)
      requires mem.Length == WORDS && Observe(mem[..]).Totals? && Observe(mem[..]).used < U32_LIMIT
      ensures usedMem == Observe(mem[..]).used
    {
      usedMem := 0;
      var current := HEAP_START;
      while current != NULL
        invariant ReadFrom(mem[..], current).Totals?
        invariant usedMem + ReadFrom(mem[..], current).used == Observe(mem[..]).used
        decreases if current == NULL || current > HEAP_END then 0 else 1 + HEAP_END - current
      {
        if mem[W(current) + 2] == 0 {
          usedMem := usedMem + mem[W(current)];
        }
        current := mem[W(current) + 1];
      }
    }
  }

  lemma SumOfMultiples(a: nat, b: nat)
    requires a % 4 == 0 && b % 4 == 0
    ensures (a + HEADER + b) % 4 == 0
  {
  }
}
