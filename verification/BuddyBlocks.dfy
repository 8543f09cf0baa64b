// Where the buddy allocator's nodes lie in the heap, and what allocating and freeing mean there.
// Offsets and sizes are in pages from the start of a heap of Pow2(h) pages.
module BuddyBlocks {
  import opened Arith
  import opened Bits
  import opened BuddyTags

  predicate InTree(h: nat, n: int) { 1 <= n < 2 * Pow2(h) }

  predicate Shaped(h: nat, u: Tags) { |u| == 2 * Pow2(h) - 1 }

  function Depth(h: nat, n: nat): (d: nat)
    requires InTree(h, n)
    ensures d <= h && Pow2(d) <= n < 2 * Pow2(d)
  {
    FloorLog2Bounds(n);
    Pow2Monotone(h + 1, FloorLog2(n));
    FloorLog2(n)
  }

  /** Pages in the block of node n. */
  function Size(h: nat, n: nat): (s: nat)
    requires InTree(h, n)
    ensures s >= 1
  {
    Pow2(h - Depth(h, n))
  }

  /** First page of the block of node n. */
  function Start(h: nat, n: nat): nat
    requires InTree(h, n)
  {
    var k, s := n - Pow2(Depth(h, n)), Size(h, n);
    ProductNatural(k, s);
    k * s
  }

  /** Byte offset of a block in the heap, halving downwards from the root as the allocator does. */
  function Offset(h: nat, pageSize: nat, n: nat): nat
    requires InTree(h, n)
  {
    if n == 1 then 0
    else Offset(h, pageSize, n / 2) + if n % 2 == 1 then Scaled(pageSize, h - Depth(h, n)) else 0
  }

  predicate Overlap(h: nat, m: nat, n: nat)
    requires InTree(h, m) && InTree(h, n)
  {
    Start(h, m) < Start(h, n) + Size(h, n) && Start(h, n) < Start(h, m) + Size(h, m)
  }

  // --- Geometry -----------------------------------------------------------------------------

  /** A child's block is one half of its parent's. */
  lemma ChildBlock(h: nat, n: nat)
    requires InTree(h, n) && n > 1
    ensures Size(h, n / 2) == 2 * Size(h, n)
    ensures Start(h, n) == Start(h, n / 2) + if n % 2 == 1 then Size(h, n) else 0
  {
    var d := Depth(h, n / 2);
    assert Depth(h, n) == d + 1;
    var s := Size(h, n);
    assert Pow2(h - d) == 2 * Pow2(h - d - 1) == 2 * s;
    assert Pow2(d + 1) == 2 * Pow2(d);
    hide Pow2, FloorLog2;
    ChildArithmetic(n / 2, n % 2, Pow2(d), s);
  }

  lemma ChildArithmetic(m: nat, b: nat, p: nat, s: nat)
    requires m >= p
    ensures (2 * m + b - 2 * p) * s == (m - p) * (2 * s) + b * s
  {}

  /** Every block lies in the heap and is aligned to its own size. */
  lemma BlockInHeap(h: nat, n: nat)
    requires InTree(h, n)
    ensures Start(h, n) + Size(h, n) <= Pow2(h)
    ensures Start(h, n) % Size(h, n) == 0
  {
    var d := Depth(h, n);
    Pow2Add(d, h - d);
    var s, k := Size(h, n), n - Pow2(d);
    hide Pow2;
    MulLe(k + 1, Pow2(d), s);
    NextMultiple(k, s);
    DivMod(k * s, s, k, 0);
  }

  lemma NextMultiple(k: nat, s: nat)
    ensures (k + 1) * s == k * s + s
  {}

  /** The offset of node n at depth d is (n - 2^d) * (heap size / 2^d). */
  lemma {:induction false} OffsetClosedForm(h: nat, pageSize: nat, n: nat)
    requires InTree(h, n)
    ensures Offset(h, pageSize, n) == Start(h, n) * pageSize
  {
    if n == 1 {
      RootStart(h);
    } else {
      OffsetClosedForm(h, pageSize, n / 2);
      ChildBlock(h, n);
      ScaledProduct(pageSize, h - Depth(h, n));
      RightHalf(Start(h, n / 2), Size(h, n), Start(h, n), pageSize, Scaled(pageSize, h - Depth(h, n)), n % 2);
    }
  }

  lemma RootStart(h: nat)
    ensures Start(h, 1) == 0
  {
    assert Depth(h, 1) == 0;
  }

  lemma RightHalf(parentStart: nat, size: nat, start: nat, pageSize: nat, bytes: nat, odd: nat)
    requires start == parentStart + if odd == 1 then size else 0
    requires bytes == pageSize * size
    ensures start * pageSize == parentStart * pageSize + if odd == 1 then bytes else 0
  {}

  lemma {:induction false} NestedIfAbove(h: nat, m: nat, n: nat)
    requires InTree(h, m) && InTree(h, n) && Above(m, n)
    ensures Start(h, m) <= Start(h, n) && Start(h, n) + Size(h, n) <= Start(h, m) + Size(h, m)
  {
    if m != n {
      NestedIfAbove(h, m, n / 2);
      ChildBlock(h, n);
    }
  }

  /** Blocks on different paths are disjoint. */
  lemma {:induction false} DisjointUnlessAbove(h: nat, m: nat, n: nat)
    requires InTree(h, m) && InTree(h, n) && m < n && !Above(m, n)
    ensures !Overlap(h, m, n)
    decreases n
  {
    ChildBlock(h, n);
    var p := n / 2;
    if p == 0 {
    } else if p < m {
      if Above(p, m) {
        Sibling(p, m, n);
        ChildBlock(h, m);
      } else {
        DisjointUnlessAbove(h, p, m);
      }
    } else {
      DisjointUnlessAbove(h, m, p);
    }
  }

  /** Nodes strictly below p and smaller than its child n can only be n's sibling. */
  lemma Sibling(p: nat, m: nat, n: nat)
    requires p == n / 2 && p >= 1 && p < m < n && Above(p, m)
    ensures m / 2 == p && m % 2 == 0 && n == m + 1
  {
    AboveIsSmaller(p, m / 2);
  }

  lemma OverlapIffAbove(h: nat, m: nat, n: nat)
    requires InTree(h, m) && InTree(h, n)
    ensures Overlap(h, m, n) <==> Above(m, n) || Above(n, m)
  {
    if Above(m, n) {
      NestedIfAbove(h, m, n);
    } else if Above(n, m) {
      NestedIfAbove(h, n, m);
    } else if m < n {
      DisjointUnlessAbove(h, m, n);
    } else {
      DisjointUnlessAbove(h, n, m);
    }
  }

  lemma LeafBlock(h: nat, page: nat)
    requires page < Pow2(h)
    ensures InTree(h, Pow2(h) + page) && Size(h, Pow2(h) + page) == 1 && Start(h, Pow2(h) + page) == page
  {
    var n := Pow2(h) + page;
    FloorLog2Unique(n, h);
    assert Pow2(0) == 1;
    hide Pow2, FloorLog2;
    assert Size(h, n) == 1;
    TimesOne(page);
  }

  lemma TimesOne(k: int)
    ensures k * 1 == k
  {}

  /** Nodes `levels` below the root: their size, and their order in memory. */
  lemma LevelBlock(h: nat, levels: nat, n: nat)
    requires levels <= h && Under(n, 1, levels)
    ensures InTree(h, n) && Size(h, n) == Pow2(h - levels)
    ensures Start(h, n) == (n - Pow2(levels)) * Pow2(h - levels)
  {
    UnderIffRange(n, 1, levels);
    Pow2Monotone(levels, h);
    FloorLog2Unique(n, levels);
  }

  lemma LevelOrder(h: nat, levels: nat, m: nat, n: nat)
    requires levels <= h && Under(m, 1, levels) && Under(n, 1, levels)
    ensures InTree(h, m) && InTree(h, n) && (m < n <==> Start(h, m) < Start(h, n))
  {
    LevelBlock(h, levels, m);
    LevelBlock(h, levels, n);
    OrderOfMultiples(m - Pow2(levels), n - Pow2(levels), Pow2(h - levels));
  }

  lemma OrderOfMultiples(a: int, b: int, s: nat)
    requires s >= 1
    ensures a < b <==> a * s < b * s
  {
    if a < b {
      MulLe(a + 1, b, s);
      assert (a + 1) * s == a * s + s;
    } else {
      MulLe(b, a, s);
    }
  }

  /** A node is free exactly when its pages belong to no live block. */
  lemma FreeIffNoOverlap(h: nat, u: Tags, n: nat)
    requires Ok(u) && Shaped(h, u) && InTree(h, n)
    ensures Free(u, n) <==> forall m | m in Live(u) :: !Overlap(h, m, n)
  {
    CoveredIffAllocatedAbove(u, n);
    if Free(u, n) {
      forall m | m in Live(u) ensures !Overlap(h, m, n) {
        OverlapIffAbove(h, m, n);
        if Above(n, m) {
          UnusedBelow(u, n, m);
        }
      }
    } else if Covered(u, n) {
      var m :| IsNode(u, m) && Above(m, n) && Tag(u, m) == Allocated;
      OverlapIffAbove(h, m, n);
      assert m in Live(u);
    } else {
      var m := UsedHasLive(u, n);
      OverlapIffAbove(h, m, n);
    }
  }

  // --- The allocator's operations ------------------------------------------------------------

  /** How far below the root a request for so many pages is served. */
  function LevelsFor(h: nat, pages: nat): (levels: nat)
    requires h >= 1 && 1 <= pages <= Pow2(h)
    ensures levels <= h
  {
    RequestLog(h, pages);
    if pages == 1 then h else h - KernelLog2(pages)
  }

  lemma RequestLog(h: nat, pages: nat)
    requires h >= 1 && 1 <= pages <= Pow2(h)
    ensures KernelLog2(pages) <= h
  {
    FloorLog2Bounds(pages);
    Pow2Monotone(h + 1, FloorLog2(pages));
    Pow2Monotone(h, FloorLog2(pages));
    if FloorLog2(pages) == h {
      assert pages == Pow2(h) == 2 * Pow2(h - 1);
    }
  }

  lemma RootFits(h: nat, levels: nat)
    requires levels <= h
    ensures Fits(2 * Pow2(h) - 1, 1, levels)
  {
    Pow2Monotone(levels, h);
    RoomToFit(2 * Pow2(h) - 1, 1, levels);
  }

  function AllocatePages(h: nat, u: Tags, pages: nat): (r: AllocResult)
    requires h >= 1 && Shaped(h, u)
    ensures Shaped(h, r.tags) && r.node <= |u|
  {
    if pages == 0 || pages > Pow2(h) then AllocResult(u, 0)
    else
      RootFits(h, LevelsFor(h, pages));
      Alloc(u, 1, LevelsFor(h, pages))
  }

  datatype FreeResult = FreeResult(tags: Tags, freed: bool)

  /** Freeing the address `offset` bytes into the heap. */
  function FreeOffset(h: nat, u: Tags, pageSize: nat, offset: nat): (r: FreeResult)
    requires Shaped(h, u) && pageSize >= 1 && offset < Scaled(pageSize, h)
    ensures Shaped(h, r.tags)
  {
    var leaf := PageLeaf(h, pageSize, offset);
    var n := Owner(u, leaf);
    if n != 0 && Tag(u, n) == Allocated && Offset(h, pageSize, n) == offset then
      FreeResult(Release(u, leaf), true)
    else
      FreeResult(u, false)
  }

  /** The leaf node of the page that holds an address. */
  function PageLeaf(h: nat, pageSize: nat, offset: nat): (leaf: nat)
    requires pageSize >= 1 && offset < Scaled(pageSize, h)
    ensures Pow2(h) <= leaf < 2 * Pow2(h)
  {
    PageInHeap(h, pageSize, offset);
    Pow2(h) + offset / pageSize
  }

  lemma PageInHeap(h: nat, pageSize: nat, offset: nat)
    requires pageSize >= 1 && offset < Scaled(pageSize, h)
    ensures offset / pageSize < Pow2(h)
  {
    ScaledProduct(pageSize, h);
    var q := offset / pageSize;
    assert q * pageSize <= offset;
    if q >= Pow2(h) {
      MulLe(Pow2(h), q, pageSize);
    }
  }

  // --- Theorems --------------------------------------------------------------------------------

  /** Complete and lowest address: a request fails exactly when every block of the chosen size overlaps
      a live block; otherwise the new block overlaps none and is the lowest such. */
  lemma AllocateTheorem(h: nat, u: Tags, pages: nat)
    requires h >= 1 && Shaped(h, u) && Ok(u) && 1 <= pages <= Pow2(h)
    ensures var r, levels := AllocatePages(h, u, pages), LevelsFor(h, pages);
      && Ok(r.tags)
      && (r.node == 0 ==> r.tags == u)
      && (r.node == 0 <==> forall n | InTree(h, n) && Size(h, n) == Pow2(h - levels) :: !Unclaimed(h, u, n))
      && (r.node != 0 ==>
            && InTree(h, r.node) && Size(h, r.node) == Pow2(h - levels) && Unclaimed(h, u, r.node)
            && Live(r.tags) == Live(u) + {r.node}
            && forall n | InTree(h, n) && Size(h, n) == Size(h, r.node) && Unclaimed(h, u, n) ::
                 Start(h, r.node) <= Start(h, n))
  {
    var levels := LevelsFor(h, pages);
    RootFits(h, levels);
    AllocAddsBlock(u, levels);
    AllocLeftmost(u, 1, levels);
    var r := Alloc(u, 1, levels);
    if r.node != 0 {
      LevelBlock(h, levels, r.node);
      FreeIffNoOverlap(h, u, r.node);
    }
    forall n | InTree(h, n) && Size(h, n) == Pow2(h - levels) && Unclaimed(h, u, n)
      ensures r.node != 0 && Start(h, r.node) <= Start(h, n)
    {
      SameSizeSameLevel(h, levels, n);
      FreeIffNoOverlap(h, u, n);
      LevelOrder(h, levels, n, r.node);
    }
  }

  /** The pages of node n belong to no live block. */
  ghost predicate Unclaimed(h: nat, u: Tags, n: nat)
    requires Shaped(h, u) && InTree(h, n)
  {
    forall m | m in Live(u) :: !Overlap(h, m, n)
  }

  lemma SameSizeSameLevel(h: nat, levels: nat, n: nat)
    requires levels <= h && InTree(h, n) && Size(h, n) == Pow2(h - levels)
    ensures Under(n, 1, levels)
  {
    Pow2Monotone(h - levels, h - Depth(h, n));
    Pow2Monotone(h - Depth(h, n), h - levels);
    UnderIffRange(n, 1, levels);
  }

  lemma FreeKeepsOk(h: nat, u: Tags, pageSize: nat, offset: nat)
    requires Shaped(h, u) && Ok(u) && pageSize >= 1 && offset < Scaled(pageSize, h)
    ensures Ok(FreeOffset(h, u, pageSize, offset).tags)
  {
    var leaf := PageLeaf(h, pageSize, offset);
    var o := Owner(u, leaf);
    OwnerIsAbove(u, leaf);
    if o != 0 && Tag(u, o) == Allocated {
      ReleaseRemovesBlock(u, o, leaf);
    }
  }

  /** Exactness of free: it succeeds exactly on the first byte of a live block, removes just that block,
      and otherwise changes nothing. */
  lemma FreeTheorem(h: nat, u: Tags, pageSize: nat, offset: nat)
    requires Shaped(h, u) && Ok(u) && pageSize >= 1 && offset < Scaled(pageSize, h)
    ensures var r := FreeOffset(h, u, pageSize, offset);
      && Ok(r.tags)
      && (!r.freed ==> r.tags == u)
      && (r.freed <==> exists n :: n in Live(u) && Offset(h, pageSize, n) == offset)
      && forall n | n in Live(u) && Offset(h, pageSize, n) == offset :: Live(r.tags) == Live(u) - {n}
  {
    var leaf := PageLeaf(h, pageSize, offset);
    var o := Owner(u, leaf);
    OwnerIsAbove(u, leaf);
    if o != 0 && Tag(u, o) == Allocated {
      ReleaseRemovesBlock(u, o, leaf);
    }
    forall n | n in Live(u) && Offset(h, pageSize, n) == offset ensures o == n {
      BaseOwnsLeaf(h, n, pageSize, offset);
      OwnerIsBlock(u, leaf, n);
    }
  }

  /** The page at a block's first byte lies below the block's node. */
  lemma BaseOwnsLeaf(h: nat, n: nat, pageSize: nat, offset: nat)
    requires InTree(h, n) && pageSize >= 1 && Offset(h, pageSize, n) == offset
    ensures offset < Scaled(pageSize, h) && Above(n, PageLeaf(h, pageSize, offset))
  {
    OffsetClosedForm(h, pageSize, n);
    BlockInHeap(h, n);
    var start := Start(h, n);
    ScaledProduct(pageSize, h);
    FirstByte(start, Pow2(h), pageSize);
    FirstLeafBelow(h, n);
  }

  lemma FirstByte(page: nat, pages: nat, pageSize: nat)
    requires page < pages && pageSize >= 1
    ensures page * pageSize < pageSize * pages && (page * pageSize) / pageSize == page
  {
    OrderOfMultiples(page, pages, pageSize);
    DivMod(page * pageSize, pageSize, page, 0);
  }

  lemma FirstLeafBelow(h: nat, n: nat)
    requires InTree(h, n) && Start(h, n) < Pow2(h)
    ensures Above(n, Pow2(h) + Start(h, n))
  {
    var leaf := Pow2(h) + Start(h, n);
    LeafBlock(h, Start(h, n));
    OverlapIffAbove(h, n, leaf);
    assert n / 2 < leaf;
    assert Above(leaf, n) ==> leaf == n;
  }

  /** Freeing the block an allocation returned gives back the very same tag array. */
  lemma FreeUndoesAllocate(h: nat, u: Tags, pages: nat, pageSize: nat)
    requires h >= 1 && Shaped(h, u) && Ok(u) && pageSize >= 1
    requires AllocatePages(h, u, pages).node != 0
    ensures var r := AllocatePages(h, u, pages);
      && InTree(h, r.node) && Offset(h, pageSize, r.node) < Scaled(pageSize, h)
      && FreeOffset(h, r.tags, pageSize, Offset(h, pageSize, r.node)) == FreeResult(u, true)
  {
    var r := AllocatePages(h, u, pages);
    AllocateTheorem(h, u, pages);
    var offset := Offset(h, pageSize, r.node);
    BaseOwnsLeaf(h, r.node, pageSize, offset);
    FreeTheorem(h, r.tags, pageSize, offset);
    RootFits(h, LevelsFor(h, pages));
    ReleaseUndoesAlloc(u, LevelsFor(h, pages), PageLeaf(h, pageSize, offset));
  }

  /** Size bound: the chosen block is big enough exactly when the request is odd or a power of two, it is
      never twice the request or more, and the request is never twice the block or more. */
  lemma SizeBound(h: nat, pages: nat)
    requires h >= 1 && 1 <= pages <= Pow2(h)
    ensures Pow2(h - LevelsFor(h, pages)) >= pages <==> pages % 2 == 1 || IsPow2(pages)
    ensures Pow2(h - LevelsFor(h, pages)) < 2 * pages
    ensures pages < 2 * Pow2(h - LevelsFor(h, pages))
  {
    RequestLog(h, pages);
    FloorLog2Bounds(pages);
    if pages > 1 && pages % 2 == 1 {
      var p := Pow2(FloorLog2(pages));
      assert p == 2 * Pow2(FloorLog2(pages) - 1);
      assert Pow2(FloorLog2(pages) + 1) == 2 * p;
    }
  }

  /** The block a request gets: of an even number of pages the largest power of two that is not above it, of an odd
      number the smallest that is not below it. */
  lemma BlockForRequest(h: nat, u: Tags, pages: nat)
    requires h >= 1 && Shaped(h, u) && Ok(u) && 1 <= pages <= Pow2(h) && AllocatePages(h, u, pages).node != 0
    ensures InTree(h, AllocatePages(h, u, pages).node)
    ensures var size := Size(h, AllocatePages(h, u, pages).node);
      && IsPow2(size)
      && if pages % 2 == 0 then size <= pages < 2 * size else pages <= size && (size == 1 || size / 2 < pages)
  {
    hide AllocatePages, Live, Unclaimed, Pow2, LevelsFor, Ok;
    AllocateTheorem(h, u, pages);
    SizeBound(h, pages);
    FloorLog2Pow2(h - LevelsFor(h, pages));
    HalfOfPower(h - LevelsFor(h, pages));
    if pages % 2 == 0 && Pow2(h - LevelsFor(h, pages)) >= pages {
      EvenPowerFits(h, pages);
    }
  }

  lemma HalfOfPower(e: nat)
    ensures Pow2(e) == 1 || Pow2(e) / 2 < Pow2(e)
    ensures Pow2(e) == 1 || Pow2(e) % 2 == 0
  {}

  lemma EvenPowerFits(h: nat, pages: nat)
    requires h >= 1 && 1 <= pages <= Pow2(h) && pages % 2 == 0 && IsPow2(pages)
    ensures Pow2(h - LevelsFor(h, pages)) == pages
  {
    RequestLog(h, pages);
  }

  /** On a fresh heap every request is served but those for no pages or more than there are, which never are. */
  lemma FreshHeapServes(h: nat, pages: nat)
    requires h >= 1
    ensures AllocatePages(h, InitialTags(h), pages).node == 0 <==> pages == 0 || pages > Pow2(h)
    ensures forall u | Shaped(h, u) && (pages == 0 || pages > Pow2(h)) ::
              AllocatePages(h, u, pages) == AllocResult(u, 0)
  {
    var u := InitialTags(h);
    InitialTagsOk(h);
    if 1 <= pages <= Pow2(h) {
      AllocateTheorem(h, u, pages);
      var levels := LevelsFor(h, pages);
      LevelHasNode(h, levels);
      assert Unclaimed(h, u, Pow2(levels)) by {
        assert Live(u) == {};
      }
    }
  }

  lemma LevelHasNode(h: nat, levels: nat)
    requires levels <= h
    ensures InTree(h, Pow2(levels)) && Size(h, Pow2(levels)) == Pow2(h - levels)
  {
    Pow2Monotone(levels, h);
    FloorLog2Pow2(levels);
  }

  /** The smallest even request that is not a power of two gets too small a block: four pages for six. */
  lemma SixPagesGetFour(h: nat)
    requires h >= 3
    ensures 6 <= Pow2(h) && Pow2(h - LevelsFor(h, 6)) == 4
  {
    Pow2Monotone(3, h);
    assert Pow2(3) == 8 && KernelLog2(6) == 2 && Pow2(2) == 4;
  }

  // --- Runs ------------------------------------------------------------------------------------

  datatype Request = Request(pages: nat) | Return(offset: nat)

  function InitialTags(h: nat): (u: Tags)
    ensures Shaped(h, u)
  {
    seq(2 * Pow2(h) - 1, _ => Unused)
  }

  lemma InitialTagsOk(h: nat)
    ensures Ok(InitialTags(h))
  {
    forall i | IsNode(InitialTags(h), i) ensures NodeOk(InitialTags(h), i) {}
  }

  /** The tags after serving the requests in order; the last one of the sequence comes last. */
  function Serve(h: nat, pageSize: nat, rs: seq<Request>): (u: Tags)
    requires h >= 1 && pageSize >= 1
    requires forall r | r in rs && r.Return? :: r.offset < Scaled(pageSize, h)
    ensures Shaped(h, u)
  {
    if rs == [] then InitialTags(h)
    else
      var u := Serve(h, pageSize, rs[..|rs| - 1]);
      match rs[|rs| - 1]
      case Request(pages) => AllocatePages(h, u, pages).tags
      case Return(offset) => FreeOffset(h, u, pageSize, offset).tags
  }

  lemma {:induction false} ServeOk(h: nat, pageSize: nat, rs: seq<Request>)
    requires h >= 1 && pageSize >= 1
    requires forall r | r in rs && r.Return? :: r.offset < Scaled(pageSize, h)
    ensures Ok(Serve(h, pageSize, rs))
  {
    if rs == [] {
      InitialTagsOk(h);
    } else {
      ServeOk(h, pageSize, rs[..|rs| - 1]);
      var u := Serve(h, pageSize, rs[..|rs| - 1]);
      match rs[|rs| - 1] {
        case Request(pages) =>
          if 1 <= pages <= Pow2(h) {
            AllocateTheorem(h, u, pages);
          }
        case Return(offset) =>
          FreeTheorem(h, u, pageSize, offset);
      }
    }
  }

  /** Safety of every run: live blocks are pairwise disjoint, inside the heap and aligned to their size. */
  lemma RunSafety(h: nat, pageSize: nat, rs: seq<Request>, m: nat, n: nat)
    requires h >= 1 && pageSize >= 1
    requires forall r | r in rs && r.Return? :: r.offset < Scaled(pageSize, h)
    requires m in Live(Serve(h, pageSize, rs)) && n in Live(Serve(h, pageSize, rs))
    ensures m != n ==> !Overlap(h, m, n)
    ensures Start(h, n) + Size(h, n) <= Pow2(h) && Start(h, n) % Size(h, n) == 0
  {
    var u := Serve(h, pageSize, rs);
    ServeOk(h, pageSize, rs);
    BlockInHeap(h, n);
    OverlapIffAbove(h, m, n);
    if m != n {
      LiveAntichain(u, m, n);
      LiveAntichain(u, n, m);
    }
  }

  /** Full coalescing: a run that leaves nothing live leaves the initial tags, so the whole heap can be had. */
  lemma RunCoalesces(h: nat, pageSize: nat, rs: seq<Request>)
    requires h >= 1 && pageSize >= 1
    requires forall r | r in rs && r.Return? :: r.offset < Scaled(pageSize, h)
    requires Live(Serve(h, pageSize, rs)) == {}
    ensures Serve(h, pageSize, rs) == InitialTags(h)
    ensures AllocatePages(h, Serve(h, pageSize, rs), Pow2(h)).node == 1
  {
    var u := Serve(h, pageSize, rs);
    ServeOk(h, pageSize, rs);
    NoLiveAllUnused(u);
    forall k | 0 <= k < |u| ensures u[k] == InitialTags(h)[k] {
      assert Tag(u, k + 1) == Unused;
    }
    FloorLog2Pow2(h);
    assert Pow2(h) == 2 * Pow2(h - 1);
    assert LevelsFor(h, Pow2(h)) == 0;
  }
}
