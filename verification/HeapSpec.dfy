/** The allocator of tinyalloc.c as functions on its three lists.

    A list is the sequence of blocks met when the `next` pointers are followed. A block
    keeps the identity of its node in the block array, so "the same list" means the same
    nodes in the same order. Sizes and addresses are `size_t` values of the 32-bit target;
    the rounding of a request is modelled with its wrap-around and its bit mask. */
module HeapSpec {

  const WORD_BITS: nat := 32
  const WORD: nat := 0x1_0000_0000

  datatype Option<+T> = None | Some(value: T)

  datatype Block = Block(id: nat, addr: nat, size: nat) {
    function End(): nat { addr + size }

    predicate Covers(x: int) { addr <= x < End() }
  }

  /** What `ta_init` fixes. `start` is the first address after the control structure. */
  datatype Config = Config(start: nat, limit: nat, blocks: nat, threshold: nat, alignment: nat)

  datatype Heap = Heap(free: seq<Block>, used: seq<Block>, blank: seq<nat>, top: nat)

  // ----- rounding a request -----

  function Pow2(k: nat): (p: nat)
    ensures p > 0
  {
    if k == 0 then 1 else 2 * Pow2(k - 1)
  }

  /** Bitwise conjunction of two naturals. */
  function BitAnd(x: nat, y: nat): nat {
    if x == 0 || y == 0 then 0
    else 2 * BitAnd(x / 2, y / 2) + (if x % 2 == 1 && y % 2 == 1 then 1 else 0)
  }

  ghost predicate PowerOfTwo(a: nat) {
    exists k: nat :: k < WORD_BITS && a == Pow2(k)
  }

  /** `(num + alignment - 1) & -alignment` in 32-bit unsigned arithmetic. */
  function RoundedSize(num: nat, alignment: nat): nat
    requires 0 < alignment <= WORD
  {
    BitAnd((num + alignment - 1) % WORD, WORD - alignment)
  }

  // ----- the free list -----

  /** Puts a block before the first one whose address is not lower. */
  function Insert(free: seq<Block>, b: Block): seq<Block> {
    if free == [] || b.addr <= free[0].addr then [b] + free
    else [free[0]] + Insert(free[1..], b)
  }

  /** Joins every run of touching neighbours into its first block; the others go to the
      front of the blank list (`heap->fresh`) one by one. */
  function Compact(free: seq<Block>, blank: seq<nat>): (seq<Block>, seq<nat>)
    decreases |free|
  {
    if |free| <= 1 then (free, blank)
    else if free[0].End() == free[1].addr then
      Compact([free[0].(size := free[0].size + free[1].size)] + free[2..], [free[1].id] + blank)
    else
      var (rest, blank') := Compact(free[1..], blank);
      ([free[0]] + rest, blank')
  }

  function Without<T>(s: seq<T>, k: nat): seq<T>
    requires k < |s|
  {
    s[..k] + s[k + 1..]
  }

  // ----- ta_alloc -----

  /** The block ends at the heap top and can be resized there without passing the limit. */
  predicate IsTop(b: Block, top: nat, limit: nat, num: nat) {
    b.End() >= top && b.addr + num <= limit
  }

  predicate Fits(b: Block, top: nat, limit: nat, num: nat) {
    IsTop(b, top, limit, num) || b.size >= num
  }

  /** Index of the first block that fits, or the length of the list. */
  function FirstFit(free: seq<Block>, top: nat, limit: nat, num: nat): (k: nat)
    ensures k <= |free|
  {
    if free == [] || Fits(free[0], top, limit, num) then 0
    else 1 + FirstFit(free[1..], top, limit, num)
  }

  /** Reuses the free block at index k. */
  function Reuse(c: Config, h: Heap, k: nat, num: nat): Heap
    requires k < |h.free|
    requires Fits(h.free[k], h.top, c.limit, num)
  {
    var b := h.free[k];
    var rest := Without(h.free, k);
    if IsTop(b, h.top, c.limit, num) then
      Heap(rest, [b.(size := num)] + h.used, h.blank, b.addr + num)
    else if h.blank != [] && b.size - num >= c.threshold then
      var split := Block(h.blank[0], b.addr + num, b.size - num);
      var (free', blank') := Compact(Insert(rest, split), h.blank[1..]);
      Heap(free', [b.(size := num)] + h.used, blank', h.top)
    else
      Heap(rest, [b] + h.used, h.blank, h.top)
  }

  /** `alloc_block` for an already rounded size. */
  function AllocRounded(c: Config, h: Heap, num: nat): (Heap, Option<nat>) {
    var k := FirstFit(h.free, h.top, c.limit, num);
    if k < |h.free| then
      FirstFitFits(h.free, h.top, c.limit, num);
      (Reuse(c, h, k, num), Some(h.free[k].addr))
    else if h.blank != [] && h.top + num <= c.limit then
      (Heap(h.free, [Block(h.blank[0], h.top, num)] + h.used, h.blank[1..], h.top + num), Some(h.top))
    else
      (h, None)
  }

  function Alloc(c: Config, h: Heap, request: nat): (Heap, Option<nat>)
    requires 0 < c.alignment <= WORD
  {
    AllocRounded(c, h, RoundedSize(request, c.alignment))
  }

  /** The search stops at the first block that fits and at no earlier one. */
  lemma {:induction false} FirstFitFits(free: seq<Block>, top: nat, limit: nat, num: nat)
    ensures var k := FirstFit(free, top, limit, num);
      && (k < |free| ==> Fits(free[k], top, limit, num))
      && (forall i :: 0 <= i < k ==> !Fits(free[i], top, limit, num))
  {
    if free == [] || Fits(free[0], top, limit, num) {
    } else {
      FirstFitFits(free[1..], top, limit, num);
      assert forall i :: 0 < i < |free| ==> free[i] == free[1..][i - 1];
    }
  }

  // ----- ta_free -----

  function FindAddr(used: seq<Block>, addr: nat): (k: nat)
    ensures k <= |used|
    ensures k < |used| ==> used[k].addr == addr
    ensures forall i :: 0 <= i < k ==> used[i].addr != addr
  {
    if used == [] || used[0].addr == addr then 0 else 1 + FindAddr(used[1..], addr)
  }

  /** The heap after `ta_free(addr)` and its result. */
  function Free(h: Heap, addr: nat): (Heap, bool) {
    var k := FindAddr(h.used, addr);
    if k == |h.used| then (h, false)
    else
      var (free', blank') := Compact(Insert(h.free, h.used[k]), h.blank);
      (Heap(free', Without(h.used, k), blank', h.top), true)
  }

  // ----- ta_init and ta_check -----

  function Init(c: Config): Heap {
    Heap([], [], seq(c.blocks, i => i), c.start)
  }

  predicate Check(c: Config, h: Heap) {
    c.blocks == |h.free| + |h.used| + |h.blank|
  }

  // ----- runs -----

  datatype Op = OpAlloc(request: nat) | OpFree(addr: nat)

  function Apply(c: Config, h: Heap, op: Op): Heap
    requires 0 < c.alignment <= WORD
  {
    match op
    case OpAlloc(request) => Alloc(c, h, request).0
    case OpFree(addr) => Free(h, addr).0
  }

  function Run(c: Config, ops: seq<Op>): Heap
    requires 0 < c.alignment <= WORD
  {
    if ops == [] then Init(c) else Apply(c, Run(c, ops[..|ops| - 1]), ops[|ops| - 1])
  }
}
