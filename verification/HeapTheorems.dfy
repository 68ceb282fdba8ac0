/** What a caller of the allocator can rely on. */
module HeapTheorems {
  import opened HeapSpec
  import opened HeapRounding
  import opened HeapLists
  import opened HeapProperties

  // ----- one allocation -----

  /** A granted request becomes the head of the used list; the rest of that list is as before. */
  lemma GrantedIsHead(c: Config, h: Heap, num: nat)
    requires Valid(c, h) && AllocRounded(c, h, num).1.Some?
    ensures var (h', p) := AllocRounded(c, h, num);
      && h'.used != [] && h'.used[1..] == h.used
      && h'.used[0].addr == p.value && num <= h'.used[0].size
  {
    FirstFitFits(h.free, h.top, c.limit, num);
  }

  /** A granted request is a new used block, aligned, large enough, inside the heap, and
      sharing no byte with a block granted before, all of which stay as they were. */
  lemma GrantedBlock(c: Config, h: Heap, request: nat)
    requires Valid(c, h) && NoWrap(c, request) && Alloc(c, h, request).1.Some?
    ensures var (h', p) := Alloc(c, h, request);
      && h'.used != [] && h'.used[1..] == h.used
      && h'.used[0].addr == p.value && p.value % c.alignment == 0
      && request <= h'.used[0].size && c.start <= p.value && h'.used[0].End() <= c.limit
      && DisjointFrom(h.used, h'.used[0])
  {
    var num := RoundedSize(request, c.alignment);
    RoundedRequest(c, request);
    AllocRoundedValid(c, h, num);
    GrantedIsHead(c, h, num);
    HeadBlock(c, Alloc(c, h, request).0);
  }

  lemma HeadBlock(c: Config, h: Heap)
    requires Valid(c, h) && h.used != []
    ensures h.used[0].addr % c.alignment == 0
    ensures c.start <= h.used[0].addr && h.used[0].End() <= c.limit
    ensures DisjointFrom(h.used[1..], h.used[0])
  {
    BlockCovered(h.used, 0);
  }

  /** The address is that of the lowest free block that is large enough or ends at the heap top
      with enough room up to the limit, and the old heap top only when there is no such block. */
  lemma FirstFitIsLowest(c: Config, h: Heap, num: nat)
    requires Valid(c, h)
    ensures var p := AllocRounded(c, h, num).1;
      var enough := (b: Block) => b.size >= num || (b.End() >= h.top && b.addr + num <= c.limit);
      if exists i :: 0 <= i < |h.free| && enough(h.free[i]) then
        p.Some?
        && (exists i :: 0 <= i < |h.free| && enough(h.free[i]) && h.free[i].addr == p.value)
        && (forall i :: 0 <= i < |h.free| && enough(h.free[i]) ==> p.value <= h.free[i].addr)
      else p.Some? ==> p.value == h.top
  {
    FirstFitFits(h.free, h.top, c.limit, num);
  }

  /** An allocation fails exactly when every free block is too small and cannot grow at the top,
      and there is no node or no room for a new block; and then nothing has changed. */
  lemma ExactFailure(c: Config, h: Heap, num: nat)
    requires Valid(c, h)
    ensures var (h', p) := AllocRounded(c, h, num);
      && (p.None? <==>
            && (forall i :: 0 <= i < |h.free| ==>
                  h.free[i].size < num && (h.free[i].End() < h.top || h.free[i].addr + num > c.limit))
            && (h.blank == [] || h.top + num > c.limit))
      && (p.None? ==> h' == h)
  {
    FirstFitFits(h.free, h.top, c.limit, num);
  }

  /** How large the granted block is: a block at the heap top takes on the requested size, a new
      one has it, and any other block keeps what it has in excess only if that is below the
      threshold or no node is left to hold it. */
  lemma GrantedSize(c: Config, h: Heap, num: nat, i: nat)
    requires Valid(c, h) && num > 0 && i < |h.free|
    requires AllocRounded(c, h, num).1 == Some(h.free[i].addr) && h.free[i].addr < h.top
    ensures var h', b := AllocRounded(c, h, num).0, h.free[i];
      h'.used != [] && h'.used[0].addr == b.addr &&
      if b.End() >= h.top && b.addr + num <= c.limit then h'.used[0].size == num && h'.top == b.addr + num
      else
        && h'.top == h.top
        && h'.used[0].size == (if h.blank == [] || b.size < num + c.threshold then b.size else num)
        && forall x: int {:trigger Covered(h'.free, x)} :: h'.used[0].End() <= x < b.End() ==> Covered(h'.free, x)
  {
    var k := FirstFit(h.free, h.top, c.limit, num);
    FirstFitFits(h.free, h.top, c.limit, num);
    assert k < |h.free|;
    OneAtAddress(h.free, i, k);
    var b := h.free[k];
    if !(b.End() >= h.top && b.addr + num <= c.limit) && h.blank != [] && b.size >= num + c.threshold {
      SplitIsFree(c, h, k, num);
    }
  }

  /** A new block at the top has the requested size, and the top moves just behind it. */
  lemma NewTopSize(c: Config, h: Heap, num: nat)
    requires Valid(c, h) && num > 0 && AllocRounded(c, h, num).1 == Some(h.top)
    ensures var h' := AllocRounded(c, h, num).0;
      h'.used != [] && h'.used[0].addr == h.top && h'.used[0].size == num && h'.top == h.top + num && h'.free == h.free
  {
    var k := FirstFit(h.free, h.top, c.limit, num);
    FirstFitFits(h.free, h.top, c.limit, num);
    if k < |h.free| {
      TopBlock(c, h, k);
      assert false;
    }
  }

  lemma OneAtAddress(s: seq<Block>, i: nat, k: nat)
    requires Spaced(s) && i < |s| && k < |s| && s[i].addr == s[k].addr
    ensures i == k
  {
  }

  /** What is split off is free. */
  lemma SplitIsFree(c: Config, h: Heap, k: nat, num: nat)
    requires Valid(c, h) && num > 0 && k < |h.free| && Fits(h.free[k], h.top, c.limit, num)
    requires !IsTop(h.free[k], h.top, c.limit, num) && Splits(c, h, h.free[k], num)
    ensures forall x: int {:trigger Covered(Reuse(c, h, k, num).free, x)} ::
      h.free[k].addr + num <= x < h.free[k].End() ==> Covered(Reuse(c, h, k, num).free, x)
  {
    var b := h.free[k];
    var split := Block(h.blank[0], b.addr + num, b.size - num);
    SplitInPlace(c, h, k, num);
    var free' := h.free[k := split];
    forall x: int | b.addr + num <= x < b.End() ensures Covered(free', x) {
      CoveredIff(free', x);
      assert free'[k].Covers(x);
    }
  }

  /** Freeing succeeds exactly for the address of a used block, which leaves the used list and whose
      bytes, and no others, become free; at any other address nothing changes. */
  lemma FreeGivesBack(c: Config, h: Heap, addr: nat)
    requires Valid(c, h)
    ensures var (h', ok) := Free(h, addr);
      && (ok <==> exists i :: 0 <= i < |h.used| && h.used[i].addr == addr)
      && (!ok ==> h' == h)
      && h'.top == h.top
      && forall i {:trigger h.used[i]} :: 0 <= i < |h.used| && h.used[i].addr == addr ==>
           && h'.used == h.used[..i] + h.used[i + 1..]
           && forall x: int {:trigger Covered(h'.free, x)} :: Covered(h'.free, x) <==> Covered(h.free, x) || h.used[i].Covers(x)
  {
    var k := FindAddr(h.used, addr);
    if k < |h.used| {
      assert forall i :: 0 <= i < |h.used| && h.used[i].addr == addr ==> i == k;
      InsertOrdered(h.free, h.used[k]);
      forall x: int ensures Covered(Free(h, addr).0.free, x) <==> Covered(h.free, x) || h.used[k].Covers(x) {
        InsertKeeps(h.free, h.used[k], x);
        CompactCovers(Insert(h.free, h.used[k]), h.blank, x);
      }
    }
  }

  /** What was freed can be allocated again: a request of the size of a block that was just
      freed never fails. */
  lemma FreedIsAvailable(c: Config, h: Heap, i: nat)
    requires Valid(c, h) && i < |h.used|
    ensures AllocRounded(c, Free(h, h.used[i].addr).0, h.used[i].size).1.Some?
  {
    var addr, b := h.used[i].addr, h.used[i];
    var k := FindAddr(h.used, addr);
    assert k == i;
    FreeValid(c, h, addr);
    var h' := Free(h, addr).0;
    InsertHolds(h.free, b);
    var j := CompactHolds(Insert(h.free, b), h.blank, b);
    assert h'.free[j].size >= b.size;
    ExactFailure(c, h', b.size);
  }

  /** Block s[j] spans block b. */
  ghost predicate Spans(s: seq<Block>, j: int, b: Block) {
    0 <= j < |s| && s[j].addr <= b.addr && b.End() <= s[j].End()
  }

  lemma InsertHolds(s: seq<Block>, b: Block)
    ensures exists j :: Spans(Insert(s, b), j, b)
  {
    var k := InsertAt(s, b);
    assert Spans(Insert(s, b), k, b);
  }

  lemma {:induction false} CompactHolds(s: seq<Block>, blank: seq<nat>, b: Block) returns (j: nat)
    requires exists i :: Spans(s, i, b)
    ensures Spans(Compact(s, blank).0, j, b)
    decreases |s|
  {
    var i: int :| Spans(s, i, b);
    if |s| <= 1 {
      j := i;
    } else if s[0].End() == s[1].addr {
      var t := [s[0].(size := s[0].size + s[1].size)] + s[2..];
      assert Spans(t, if i <= 1 then 0 else i - 1, b);
      j := CompactHolds(t, [s[1].id] + blank, b);
    } else if i == 0 {
      j := 0;
    } else {
      assert Spans(s[1..], i - 1, b);
      j := CompactHolds(s[1..], blank, b);
      j := j + 1;
    }
  }

  // ----- allocation undone -----
  // ----- allocation undone -----

  lemma UndoReuse(c: Config, h: Heap, k: nat, num: nat)
    requires Shape(c, h) && c.threshold > 0 && k < |h.free| && num > 0
    requires Fits(h.free[k], h.top, c.limit, num)
    requires IsTop(h.free[k], h.top, c.limit, num) ==> h.free[k].size == num
    ensures Free(Reuse(c, h, k, num), h.free[k].addr) == (h, true)
  {
    var b, h' := h.free[k], Reuse(c, h, k, num);
    TopBlock(c, h, k);
    assert FindAddr(h'.used, b.addr) == 0;
    assert Without(h'.used, 0) == h.used;
    if !IsTop(b, h.top, c.limit, num) && Splits(c, h, b, num) {
      UndoSplit(c, h, k, num);
    } else {
      InsertBack(h.free, k, b);
      assert h.free[k := b] == h.free;
      CompactIdle(h.free, h.blank);
    }
  }

  /** Freeing a split block joins it with its tail and returns the borrowed node. */
  lemma UndoSplit(c: Config, h: Heap, k: nat, num: nat)
    requires Shape(c, h) && c.threshold > 0 && k < |h.free| && num > 0
    requires !IsTop(h.free[k], h.top, c.limit, num) && Splits(c, h, h.free[k], num)
    ensures var h' := Reuse(c, h, k, num);
      Compact(Insert(h'.free, h'.used[0]), h'.blank) == (h.free, h.blank)
  {
    var b := h.free[k];
    var part, split := b.(size := num), Block(h.blank[0], b.addr + num, b.size - num);
    SplitInPlace(c, h, k, num);
    var free' := h.free[k := split];
    var j := InsertAt(free', part);
    SplitPosition(h.free, free', k, part, split, j);
    var a, z := h.free[..k], h.free[k + 1..];
    assert free'[..k] + [part] + free'[k..] == a + [part, split] + z;
    assert a + [b] + z == h.free;
    assert part.(size := part.size + split.size) == b;
    CompactPair(a, part, split, z, h.blank[1..]);
    assert [h.blank[0]] + h.blank[1..] == h.blank;
  }

  lemma SplitPosition(s: seq<Block>, t: seq<Block>, k: nat, part: Block, split: Block, j: nat)
    requires Spaced(s) && k < |s| && t == s[k := split] && j <= |t|
    requires s[k].addr == part.addr && part.size > 0 && part.End() == split.addr
    requires forall i :: 0 <= i < j ==> t[i].addr < part.addr
    requires j < |t| ==> part.addr <= t[j].addr
    ensures j == k
  {
    assert forall i :: 0 <= i < k ==> t[i] == s[i] && s[i].addr < part.addr;
    assert t[k].addr > part.addr;
  }

  /** The first fitting free block does not have to be resized at the heap top. */
  ghost predicate ReusesInPlace(c: Config, h: Heap, num: nat) {
    var k := FirstFit(h.free, h.top, c.limit, num);
    k < |h.free| && (IsTop(h.free[k], h.top, c.limit, num) ==> h.free[k].size == num)
  }

  /** Freeing what was just allocated restores the whole heap (used, free and blank lists with
      their nodes, sizes and the top) exactly when a free block was reused in place. */
  lemma AllocThenFree(c: Config, h: Heap, num: nat)
    requires Valid(c, h) && num > 0 && num % c.alignment == 0
    requires AllocRounded(c, h, num).1.Some?
    ensures var (h', p) := AllocRounded(c, h, num);
      Free(h', p.value) == (h, true) <==> ReusesInPlace(c, h, num)
  {
    var k := FirstFit(h.free, h.top, c.limit, num);
    FirstFitFits(h.free, h.top, c.limit, num);
    if k < |h.free| {
      TopBlock(c, h, k);
      if ReusesInPlace(c, h, num) {
        UndoReuse(c, h, k, num);
      }
    }
  }

  // ----- no permanent fragmentation -----

  /** With no block in use the free list is one block over [start, top), or empty. */
  lemma AllFreedIsOneBlock(c: Config, h: Heap)
    requires Valid(c, h) && h.used == []
    ensures |h.free| <= 1
    ensures h.free == [] <==> h.top == c.start
    ensures |h.free| == 1 ==> h.free[0].addr == c.start && h.free[0].End() == h.top
  {
    if h.free != [] {
      TopBlock(c, h, 0);
      BlockCovered(h.free, 0);
      CoveredIff(h.free, c.start);
      CoveredIff(h.free, h.free[0].End());
      assert h.free[0].addr == c.start;
    } else {
      assert c.start < h.top ==> Covered(h.free, c.start) || Covered(h.used, c.start);
    }
  }

  /** Whatever was allocated and freed before, once nothing is in use every request whose
      rounded size fits between start and limit succeeds, at the start of the heap. */
  lemma NoPermanentFragmentation(c: Config, ops: seq<Op>, request: nat)
    requires ValidConfig(c) && HonestOps(c, ops) && Run(c, ops).used == [] && NoWrap(c, request)
    requires c.start + RoundedSize(request, c.alignment) <= c.limit
    ensures Alloc(c, Run(c, ops), request).1 == Some(c.start)
  {
    var h := Run(c, ops);
    RunValid(c, ops);
    AllFreedIsOneBlock(c, h);
    if h.free == [] {
      CheckAlwaysTrue(c, ops);
    } else {
      assert IsTop(h.free[0], h.top, c.limit, RoundedSize(request, c.alignment));
    }
  }
}
