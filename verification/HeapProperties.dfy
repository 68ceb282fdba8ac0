/** What the allocator keeps over every run, and what it gives back. */
module HeapProperties {
  import opened HeapSpec
  import opened HeapRounding
  import opened HeapLists

  // ----- the invariant -----

  /** What `ta_init` demands: a power-of-two alignment, an aligned first address below the
      limit, at least one block, and addresses that do not wrap around. */
  ghost predicate ValidConfig(c: Config) {
    && PowerOfTwo(c.alignment) && 0 < c.alignment <= WORD
    && c.start <= c.limit < WORD && c.start % c.alignment == 0
    && c.blocks > 0 && c.threshold > 0
  }

  /** Used and free blocks are pairwise disjoint and together cover exactly [start, top). */
  ghost predicate Tiling(c: Config, h: Heap) {
    && c.start <= h.top <= c.limit
    && (forall i, j :: 0 <= i < j < |h.used| ==>
          h.used[i].End() <= h.used[j].addr || h.used[j].End() <= h.used[i].addr)
    && (forall i :: 0 <= i < |h.used| ==> h.used[i].size > 0 && DisjointFrom(h.free, h.used[i]))
    && (forall x: int :: (c.start <= x < h.top) <==> (Covered(h.free, x) || Covered(h.used, x)))
  }

  ghost predicate AlignedHeap(c: Config, h: Heap)
    requires c.alignment > 0
  {
    && h.top % c.alignment == 0 && Aligned(h.free, c.alignment) && Aligned(h.used, c.alignment)
  }

  /** Every node of the block array is on exactly one of the three lists, once. */
  ghost function Nodes(h: Heap): multiset<nat> {
    IdBag(h.free) + IdBag(h.used) + multiset(h.blank)
  }

  ghost predicate AllNodes(c: Config, h: Heap) {
    && (forall id: nat :: Nodes(h)[id] == if id < c.blocks then 1 else 0)
    && |Nodes(h)| == c.blocks
  }

  /** A strictly sorted free list without touching blocks, inside an exact tiling. */
  ghost predicate Shape(c: Config, h: Heap) {
    Spaced(h.free) && Tiling(c, h)
  }

  ghost predicate Valid(c: Config, h: Heap) {
    ValidConfig(c) && Shape(c, h) && AlignedHeap(c, h) && AllNodes(c, h)
  }

  /** A request the 32-bit arithmetic of `alloc_block` handles without wrapping around. */
  ghost predicate NoWrap(c: Config, request: nat) {
    0 < request && request + c.alignment + c.limit <= WORD
  }

  // ----- start -----

  ghost function Numbers(n: nat): seq<nat> { seq(n, i => i) }

  lemma {:induction false} NumbersOnce(n: nat)
    ensures forall id: nat :: multiset(Numbers(n))[id] == if id < n then 1 else 0
  {
    if n > 0 {
      NumbersOnce(n - 1);
      assert Numbers(n) == Numbers(n - 1) + [n - 1];
    }
  }

  lemma InitValid(c: Config)
    requires ValidConfig(c)
    ensures Valid(c, Init(c))
  {
    NumbersOnce(c.blocks);
    assert Nodes(Init(c)) == multiset(Numbers(c.blocks));
  }

  // ----- allocation -----

  /** The rounded size of an honest request: aligned, positive, and not too small. */
  lemma RoundedRequest(c: Config, request: nat)
    requires ValidConfig(c) && NoWrap(c, request)
    ensures var num := RoundedSize(request, c.alignment);
      num % c.alignment == 0 && request <= num < request + c.alignment
  {
    RoundingCoversRequest(request, c.alignment);
  }

  // ----- points of a list -----

  lemma ConsCovered(b: Block, s: seq<Block>)
    ensures forall x: int :: Covered([b] + s, x) <==> b.Covers(x) || Covered(s, x)
    ensures IdBag([b] + s) == multiset{b.id} + IdBag(s)
  {
    assert ([b] + s)[1..] == s;
  }

  lemma PointsApart(s: seq<Block>, b: Block)
    requires DisjointFrom(s, b)
    ensures forall x: int :: !(Covered(s, x) && b.Covers(x))
  {
    forall x: int ensures !(Covered(s, x) && b.Covers(x)) {
      CoveredIff(s, x);
    }
  }

  /** Covering no common byte, positive blocks are disjoint as intervals. */
  lemma PointsToIntervals(s: seq<Block>, b: Block)
    requires b.size > 0 && forall i :: 0 <= i < |s| ==> s[i].size > 0
    requires forall x: int :: !(Covered(s, x) && b.Covers(x))
    ensures DisjointFrom(s, b)
  {
    forall i | 0 <= i < |s| ensures s[i].End() <= b.addr || b.End() <= s[i].addr {
      var x := if s[i].addr < b.addr then b.addr else s[i].addr;
      CoveredIff(s, x);
      assert s[i].addr <= x < s[i].End() ==> s[i].Covers(x);
      assert !(Covered(s, x) && b.Covers(x));
    }
  }

  lemma BlockCovered(s: seq<Block>, k: nat)
    requires k < |s| && s[k].size > 0
    ensures Covered(s, s[k].addr) && Covered(s, s[k].End() - 1)
  {
    CoveredIff(s, s[k].addr);
    CoveredIff(s, s[k].End() - 1);
    assert s[k].Covers(s[k].addr) && s[k].Covers(s[k].End() - 1);
  }

  /** In a valid heap a block that reaches the top ends there and is the last free block. */
  lemma TopBlock(c: Config, h: Heap, k: nat)
    requires Shape(c, h) && k < |h.free|
    ensures c.start <= h.free[k].addr && h.free[k].End() <= h.top
    ensures h.free[k].End() == h.top ==> k == |h.free| - 1
  {
    BlockCovered(h.free, k);
    if k < |h.free| - 1 {
      BlockCovered(h.free, k + 1);
    }
  }

  /** What is left of the free list when block k is taken out. */
  lemma TakeOut(c: Config, h: Heap, k: nat)
    requires Shape(c, h) && k < |h.free|
    ensures var rest := Without(h.free, k);
      && Spaced(rest) && DisjointFrom(rest, h.free[k])
      && (forall i :: 0 <= i < |h.used| ==> DisjointFrom(rest, h.used[i]))
      && (forall x: int :: Covered(h.free, x) <==> h.free[k].Covers(x) || Covered(rest, x))
  {
    var rest := Without(h.free, k);
    assert forall i :: 0 <= i < |rest| ==> rest[i] == h.free[if i < k then i else i + 1];
    forall x: int ensures Covered(h.free, x) <==> h.free[k].Covers(x) || Covered(rest, x) {
      WithoutList(h.free, k, x);
    }
  }

  // ----- reusing a free block -----

  /** Reusing the top block moves the heap top to the end of the resized block. */
  lemma ReuseTopShape(c: Config, h: Heap, k: nat, num: nat)
    requires Shape(c, h) && k < |h.free| && num > 0
    requires IsTop(h.free[k], h.top, c.limit, num)
    ensures Shape(c, Reuse(c, h, k, num))
  {
    TakeOut(c, h, k);
    ConsCovered(h.free[k].(size := num), h.used);
    BelowTop(c, h, k);
  }

  /** Every other block ends before the last one begins. */
  lemma BelowTop(c: Config, h: Heap, k: nat)
    requires Shape(c, h) && k < |h.free| && h.free[k].End() >= h.top
    ensures c.start <= h.free[k].addr
    ensures forall i :: 0 <= i < |Without(h.free, k)| ==> Without(h.free, k)[i].End() <= h.free[k].addr
    ensures forall i :: 0 <= i < |h.used| ==> h.used[i].End() <= h.free[k].addr
    ensures forall x: int ::
      (c.start <= x < h.free[k].addr) <==> Covered(Without(h.free, k), x) || Covered(h.used, x)
  {
    var b, rest := h.free[k], Without(h.free, k);
    TakeOut(c, h, k);
    TopBlock(c, h, k);
    PointsApart(h.used, b);
    PointsApart(rest, b);
    forall i | 0 <= i < |rest| ensures rest[i].End() <= b.addr {
      BlockCovered(rest, i);
    }
    forall i | 0 <= i < |h.used| ensures h.used[i].End() <= b.addr {
      BlockCovered(h.used, i);
    }
  }

  /** Without a split the whole block changes lists. */
  lemma ReuseWholeShape(c: Config, h: Heap, k: nat)
    requires Shape(c, h) && k < |h.free|
    ensures Shape(c, Heap(Without(h.free, k), [h.free[k]] + h.used, h.blank, h.top))
  {
    TakeOut(c, h, k);
    ConsCovered(h.free[k], h.used);
  }

  /** A split leaves its tail at the place of the block; there is nothing to join. */
  lemma SplitInPlace(c: Config, h: Heap, k: nat, num: nat)
    requires Shape(c, h) && k < |h.free| && h.blank != []
    requires !IsTop(h.free[k], h.top, c.limit, num) && 0 < num < h.free[k].size
    requires h.free[k].size - num >= c.threshold
    ensures var b := h.free[k];
      var split := Block(h.blank[0], b.addr + num, b.size - num);
      Reuse(c, h, k, num)
        == Heap(h.free[k := split], [b.(size := num)] + h.used, h.blank[1..], h.top)
  {
    var b := h.free[k];
    var split := Block(h.blank[0], b.addr + num, b.size - num);
    InsertBack(h.free, k, split);
    CompactIdle(h.free[k := split], h.blank[1..]);
  }

  lemma SplitSpaced(c: Config, h: Heap, k: nat, part: Block, split: Block)
    requires Shape(c, h) && k < |h.free| && 0 < part.size && 0 < split.size
    requires h.free[k].addr == part.addr && part.End() == split.addr && split.End() == h.free[k].End()
    ensures Spaced(h.free[k := split]) && DisjointFrom(h.free[k := split], part)
    ensures forall i :: 0 <= i < |h.used| ==> DisjointFrom(h.free[k := split], h.used[i])
    ensures DisjointFrom(h.used, part)
  {
    var free' := h.free[k := split];
    assert forall i :: 0 <= i < |h.free| ==>
      free'[i] == h.free[i] || (i == k && h.free[k].addr <= split.addr && split.End() == h.free[k].End());
  }

  lemma WithoutUpdated(s: seq<Block>, k: nat, b: Block)
    requires k < |s|
    ensures Without(s[k := b], k) == Without(s, k)
  {
  }

  lemma SplitCovered(s: seq<Block>, k: nat, part: Block, split: Block, x: int)
    requires k < |s| && s[k].addr == part.addr && part.End() == split.addr && split.End() == s[k].End()
    ensures Covered(s, x) <==> Covered(s[k := split], x) || part.Covers(x)
  {
    CoveredWithout(s, k, x);
    CoveredWithout(s[k := split], k, x);
    WithoutUpdated(s, k, split);
  }

  lemma CoveredWithout(s: seq<Block>, k: nat, x: int)
    requires k < |s|
    ensures Covered(s, x) <==> s[k].Covers(x) || Covered(Without(s, k), x)
  {
    WithoutList(s, k, x);
  }

  lemma ReuseSplitShape(c: Config, h: Heap, k: nat, part: Block, split: Block, blank: seq<nat>)
    requires Shape(c, h) && k < |h.free| && 0 < part.size && 0 < split.size
    requires h.free[k].addr == part.addr && part.End() == split.addr && split.End() == h.free[k].End()
    ensures Shape(c, Heap(h.free[k := split], [part] + h.used, blank, h.top))
  {
    SplitSpaced(c, h, k, part, split);
    ConsCovered(part, h.used);
    var h' := Heap(h.free[k := split], [part] + h.used, blank, h.top);
    forall x: int ensures (c.start <= x < h'.top) <==> (Covered(h'.free, x) || Covered(h'.used, x)) {
      SplitCovered(h.free, k, part, split, x);
      assert Covered(h'.used, x) <==> part.Covers(x) || Covered(h.used, x);
    }
  }

  ghost predicate Splits(c: Config, h: Heap, b: Block, num: nat) {
    h.blank != [] && num <= b.size && b.size - num >= c.threshold
  }

  lemma SplitReuseShape(c: Config, h: Heap, k: nat, num: nat)
    requires Shape(c, h) && c.threshold > 0 && k < |h.free| && num > 0
    requires !IsTop(h.free[k], h.top, c.limit, num) && Splits(c, h, h.free[k], num)
    ensures Shape(c, Reuse(c, h, k, num))
  {
    var b := h.free[k];
    var part, split := b.(size := num), Block(h.blank[0], b.addr + num, b.size - num);
    ReuseSplitShape(c, h, k, part, split, h.blank[1..]);
    var h' := Heap(h.free[k := split], [part] + h.used, h.blank[1..], h.top);
    assert Reuse(c, h, k, num) == h' by { SplitInPlace(c, h, k, num); }
  }

  lemma ReuseShape(c: Config, h: Heap, k: nat, num: nat)
    requires Shape(c, h) && c.threshold > 0 && k < |h.free| && num > 0
    requires Fits(h.free[k], h.top, c.limit, num)
    ensures Shape(c, Reuse(c, h, k, num))
  {
    if IsTop(h.free[k], h.top, c.limit, num) {
      ReuseTopShape(c, h, k, num);
    } else if Splits(c, h, h.free[k], num) {
      SplitReuseShape(c, h, k, num);
    } else {
      ReuseWholeShape(c, h, k);
    }
  }

  lemma {:induction false} WithoutAligned(s: seq<Block>, k: nat, m: nat)
    requires m > 0 && k < |s| && Aligned(s, m)
    ensures Aligned(Without(s, k), m)
  {
    assert forall i :: 0 <= i < |Without(s, k)| ==> Without(s, k)[i] == s[if i < k then i else i + 1];
  }

  lemma ReuseAligned(c: Config, h: Heap, k: nat, num: nat)
    requires ValidConfig(c) && Shape(c, h) && AlignedHeap(c, h) && k < |h.free|
    requires num > 0 && num % c.alignment == 0 && Fits(h.free[k], h.top, c.limit, num)
    ensures AlignedHeap(c, Reuse(c, h, k, num))
  {
    var b, m := h.free[k], c.alignment;
    WithoutAligned(h.free, k, m);
    AddAligned(b.addr, num, m);
    AddAligned(b.size, num, m);
    if !IsTop(b, h.top, c.limit, num) && h.blank != [] && b.size - num >= c.threshold {
      SplitInPlace(c, h, k, num);
    }
  }

  lemma ReuseNodes(c: Config, h: Heap, k: nat, num: nat)
    requires Shape(c, h) && c.threshold > 0 && k < |h.free|
    requires num > 0 && Fits(h.free[k], h.top, c.limit, num)
    ensures Nodes(Reuse(c, h, k, num)) == Nodes(h)
  {
    var b, h' := h.free[k], Reuse(c, h, k, num);
    if !IsTop(b, h.top, c.limit, num) && Splits(c, h, b, num) {
      SplitInPlace(c, h, k, num);
      var split := Block(h.blank[0], b.addr + num, b.size - num);
      SplitReuseNodes(h.free, h.used, k, b.(size := num), split, h.blank);
    } else {
      MovedNodes(h.free, h.used, k, h'.used[0], h.blank);
      assert h'.free == Without(h.free, k) && h'.used == [h'.used[0]] + h.used && h'.blank == h.blank;
    }
  }

  lemma SplitReuseNodes(free: seq<Block>, used: seq<Block>, k: nat, part: Block, split: Block, blank: seq<nat>)
    requires k < |free| && blank != [] && split.id == blank[0] && part.id == free[k].id
    ensures IdBag(free[k := split]) + IdBag([part] + used) + multiset(blank[1..]) == IdBag(free) + IdBag(used) + multiset(blank)
  {
    ConsCovered(part, used);
    SplitNodes(free, k, split, blank);
    WithMore(IdBag(free[k := split]), multiset{part.id}, multiset(blank[1..]), IdBag(free), multiset(blank), IdBag(used));
  }

  lemma WithMore(a: multiset<nat>, b: multiset<nat>, c: multiset<nat>, d: multiset<nat>, e: multiset<nat>, more: multiset<nat>)
    requires a + b + c == d + e
    ensures a + (b + more) + c == d + more + e
  {
    assert a + (b + more) + c == a + b + c + more;
  }

  lemma MovedNodes(free: seq<Block>, used: seq<Block>, k: nat, b: Block, blank: seq<nat>)
    requires k < |free| && b.id == free[k].id
    ensures IdBag(Without(free, k)) + IdBag([b] + used) + multiset(blank) == IdBag(free) + IdBag(used) + multiset(blank)
  {
    WithoutList(free, k, 0);
    ConsCovered(b, used);
  }

  /** The node of a split comes from the blank list. */
  lemma SplitNodes(s: seq<Block>, k: nat, split: Block, blank: seq<nat>)
    requires k < |s| && blank != [] && split.id == blank[0]
    ensures IdBag(s[k := split]) + multiset{s[k].id} + multiset(blank[1..]) == IdBag(s) + multiset(blank)
  {
    WithoutList(s, k, 0);
    WithoutList(s[k := split], k, 0);
    WithoutUpdated(s, k, split);
    FirstOfBag(blank);
    Swapped(IdBag(Without(s, k)), multiset{blank[0]}, multiset{s[k].id}, multiset(blank[1..]));
  }

  lemma FirstOfBag(s: seq<nat>)
    requires s != []
    ensures multiset(s) == multiset{s[0]} + multiset(s[1..])
  {
    assert s == [s[0]] + s[1..];
  }

  lemma Swapped(rest: multiset<nat>, a: multiset<nat>, b: multiset<nat>, more: multiset<nat>)
    ensures rest + a + b + more == rest + b + (a + more)
  {
  }

  // ----- a new block at the top -----

  lemma GrowShape(c: Config, h: Heap, b: Block, blank: seq<nat>)
    requires Shape(c, h) && b.size > 0 && b.addr == h.top && b.End() <= c.limit
    ensures Shape(c, Heap(h.free, [b] + h.used, blank, b.End()))
  {
    ConsCovered(b, h.used);
    forall i | 0 <= i < |h.free| ensures h.free[i].End() <= b.addr {
      BlockCovered(h.free, i);
    }
    forall i | 0 <= i < |h.used| ensures h.used[i].End() <= b.addr {
      BlockCovered(h.used, i);
    }
  }

  lemma AllocRoundedValid(c: Config, h: Heap, num: nat)
    requires Valid(c, h) && num > 0 && num % c.alignment == 0
    ensures Valid(c, AllocRounded(c, h, num).0)
  {
    var k := FirstFit(h.free, h.top, c.limit, num);
    FirstFitFits(h.free, h.top, c.limit, num);
    if k < |h.free| {
      ReuseShape(c, h, k, num);
      ReuseAligned(c, h, k, num);
      ReuseNodes(c, h, k, num);
    } else if h.blank != [] && h.top + num <= c.limit {
      GrowValid(c, h, num);
    }
  }

  lemma GrowValid(c: Config, h: Heap, num: nat)
    requires Valid(c, h) && num > 0 && num % c.alignment == 0 && h.blank != [] && h.top + num <= c.limit
    ensures Valid(c, Heap(h.free, [Block(h.blank[0], h.top, num)] + h.used, h.blank[1..], h.top + num))
  {
    var b := Block(h.blank[0], h.top, num);
    GrowShape(c, h, b, h.blank[1..]);
    AddAligned(h.top, num, c.alignment);
    GrowNodes(h, b);
  }

  lemma GrowNodes(h: Heap, b: Block)
    requires h.blank != [] && b.id == h.blank[0]
    ensures Nodes(Heap(h.free, [b] + h.used, h.blank[1..], b.End())) == Nodes(h)
  {
    ConsCovered(b, h.used);
    assert h.blank == [h.blank[0]] + h.blank[1..];
    calc {
      IdBag(h.free) + (multiset{b.id} + IdBag(h.used)) + multiset(h.blank[1..]);
      IdBag(h.free) + IdBag(h.used) + (multiset{b.id} + multiset(h.blank[1..]));
      Nodes(h);
    }
  }

  lemma AllocValid(c: Config, h: Heap, request: nat)
    requires Valid(c, h) && NoWrap(c, request)
    ensures Valid(c, Alloc(c, h, request).0)
  {
    RoundedRequest(c, request);
    AllocRoundedValid(c, h, RoundedSize(request, c.alignment));
  }

  // ----- freeing -----

  lemma FreeShape(c: Config, h: Heap, k: nat)
    requires Shape(c, h) && k < |h.used|
    ensures var (free', blank') := Compact(Insert(h.free, h.used[k]), h.blank);
      Shape(c, Heap(free', Without(h.used, k), blank', h.top))
  {
    var b, used' := h.used[k], Without(h.used, k);
    var inserted := Insert(h.free, b);
    InsertOrdered(h.free, b);
    CompactSpaced(inserted, h.blank);
    var free' := Compact(inserted, h.blank).0;
    forall x: int ensures Covered(free', x) <==> b.Covers(x) || Covered(h.free, x) {
      InsertKeeps(h.free, b, x);
      CompactCovers(inserted, h.blank, x);
    }
    FreeKeepsUsedApart(c, h, k, free');
    forall x: int ensures (c.start <= x < h.top) <==> (Covered(free', x) || Covered(used', x)) {
      WithoutList(h.used, k, x);
    }
  }

  lemma FreeKeepsUsedApart(c: Config, h: Heap, k: nat, free': seq<Block>)
    requires Shape(c, h) && k < |h.used| && Spaced(free')
    requires forall x: int :: Covered(free', x) <==> h.used[k].Covers(x) || Covered(h.free, x)
    ensures var used' := Without(h.used, k);
      && (forall i, j :: 0 <= i < j < |used'| ==>
            used'[i].End() <= used'[j].addr || used'[j].End() <= used'[i].addr)
      && (forall i :: 0 <= i < |used'| ==> used'[i].size > 0 && DisjointFrom(free', used'[i]))
  {
    var used' := Without(h.used, k);
    assert forall i :: 0 <= i < |used'| ==> used'[i] == h.used[if i < k then i else i + 1];
    forall i | 0 <= i < |used'| ensures DisjointFrom(free', used'[i]) {
      var u := used'[i];
      PointsApart(h.free, u);
      PointsToIntervals(free', u);
    }
  }

  lemma FreeValid(c: Config, h: Heap, addr: nat)
    requires Valid(c, h)
    ensures Valid(c, Free(h, addr).0)
  {
    var k := FindAddr(h.used, addr);
    if k < |h.used| {
      var b := h.used[k];
      FreeShape(c, h, k);
      WithoutAligned(h.used, k, c.alignment);
      InsertAligned(h.free, b, c.alignment);
      CompactAligned(Insert(h.free, b), h.blank, c.alignment);
      FreeNodes(h, k);
    }
  }

  lemma InsertAligned(s: seq<Block>, b: Block, m: nat)
    requires m > 0 && Aligned(s, m) && Aligned([b], m)
    ensures Aligned(Insert(s, b), m)
  {
    var k := InsertAt(s, b);
    assert [b][0] == b;
  }

  lemma FreeNodes(h: Heap, k: nat)
    requires k < |h.used|
    ensures var (free', blank') := Compact(Insert(h.free, h.used[k]), h.blank);
      Nodes(Heap(free', Without(h.used, k), blank', h.top)) == Nodes(h)
  {
    var b := h.used[k];
    var (free', blank') := Compact(Insert(h.free, b), h.blank);
    InsertKeeps(h.free, b, 0);
    CompactKeepsNodes(Insert(h.free, b), h.blank);
    WithoutList(h.used, k, 0);
    var rest := IdBag(Without(h.used, k));
    calc {
      IdBag(free') + rest + multiset(blank');
      (IdBag(free') + multiset(blank')) + rest;
      multiset{b.id} + IdBag(h.free) + multiset(h.blank) + rest;
      IdBag(h.free) + (multiset{b.id} + rest) + multiset(h.blank);
      Nodes(h);
    }
  }

  // ----- every run -----

  ghost predicate HonestOps(c: Config, ops: seq<Op>) {
    forall i :: 0 <= i < |ops| && ops[i].OpAlloc? ==> NoWrap(c, ops[i].request)
  }

  lemma {:induction false} RunValid(c: Config, ops: seq<Op>)
    requires ValidConfig(c) && HonestOps(c, ops)
    ensures Valid(c, Run(c, ops))
  {
    if ops == [] {
      InitValid(c);
    } else {
      var before, op := ops[..|ops| - 1], ops[|ops| - 1];
      RunValid(c, before);
      match op {
        case OpAlloc(request) => AllocValid(c, Run(c, before), request);
        case OpFree(addr) => FreeValid(c, Run(c, before), addr);
      }
    }
  }

  lemma {:induction false} IdBagSize(s: seq<Block>)
    ensures |IdBag(s)| == |s|
  {
    if s != [] { IdBagSize(s[1..]); }
  }

  lemma ValidChecks(c: Config, h: Heap)
    requires Valid(c, h)
    ensures Check(c, h)
  {
    IdBagSize(h.free);
    IdBagSize(h.used);
  }

  /** `ta_check` never fails. */
  lemma CheckAlwaysTrue(c: Config, ops: seq<Op>)
    requires ValidConfig(c) && HonestOps(c, ops)
    ensures Check(c, Run(c, ops))
  {
    RunValid(c, ops);
    ValidChecks(c, Run(c, ops));
  }

  /** In every run the three lists share no node, repeat none, and miss none. */
  lemma EveryNodeOnOneList(c: Config, ops: seq<Op>, id: nat)
    requires ValidConfig(c) && HonestOps(c, ops) && id < c.blocks
    ensures var h := Run(c, ops);
      IdBag(h.free)[id] + IdBag(h.used)[id] + multiset(h.blank)[id] == 1
  {
    RunValid(c, ops);
    assert Nodes(Run(c, ops))[id] == 1;
  }
}
