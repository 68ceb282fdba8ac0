/** tinyalloc.c on its own data: three lists threaded through one array of blocks.

    A block pointer is an index into the array, NIL is the null pointer. Ghost fields hold the
    nodes of each list in order; `View` reads the lists off the array, and every method is
    proved against the functions of HeapSpec on that view. */
module TinyAlloc {
  import opened HeapSpec
  import opened HeapChains
  import HeapProperties

  lemma {:induction false} InsertPosition(a: seq<Block>, b: Block, z: seq<Block>)
    requires (forall i :: 0 <= i < |a| ==> a[i].addr < b.addr)
    requires z != [] ==> b.addr <= z[0].addr
    ensures Insert(a + z, b) == a + [b] + z
  {
    if a == [] {
      assert a + z == z;
    } else {
      assert (a + z)[1..] == a[1..] + z;
      InsertPosition(a[1..], b, z);
    }
  }

  lemma HeadRead(mem: seq<Node>, head: int, ids: seq<nat>, end: int)
    requires Leads(mem, head, ids, end)
    ensures ids != [] ==> ids[0] < |mem| && Read(mem, ids)[0] == Block(ids[0], mem[ids[0]].addr, mem[ids[0]].size)
  {
  }

  /** What linking a node into the free list does to the three lists. */
  lemma InsertLists(mem: seq<Node>, free: int, a: seq<nat>, block: nat, z: seq<nat>,
                    used: int, usedIds: seq<nat>, blank: int, blankIds: seq<nat>)
    requires Lists(mem, free, a + z, used, usedIds, blank, blankIds) && block < |mem|
    requires block !in a + z && block !in usedIds && block !in blankIds
    requires forall i :: 0 <= i < |a| ==> Read(mem, a)[i].addr < mem[block].addr
    requires z != [] ==> z[0] < |mem| && mem[block].addr <= mem[z[0]].addr
    ensures var mem' := LinkedMem(mem, LastOr(a, NIL), block, HeadOr(z, NIL));
      && Lists(mem', HeadAfter(LastOr(a, NIL), free, block), a + [block] + z, used, usedIds, blank, blankIds)
      && Read(mem', a + [block] + z) == Insert(Read(mem, a + z), Block(block, mem[block].addr, mem[block].size))
      && Read(mem', usedIds) == Read(mem, usedIds)
    ensures forall id :: id in a + [block] + z <==> id == block || id in a + z
  {
    var mem' := LinkedMem(mem, LastOr(a, NIL), block, HeadOr(z, NIL));
    assert forall id :: id in a + z <==> id in a || id in z;
    Cut(mem, free, a, z);
    HeadRead(mem, HeadOr(z, NIL), z, NIL);
    InsertPosition(Read(mem, a), Block(block, mem[block].addr, mem[block].size), Read(mem, z));
    Joined(mem, 0, a, z, 0);
    LinkInto(mem, free, a, block, z);
    OthersUntouched(mem, mem', used, usedIds, a, block);
    OthersUntouched(mem, mem', blank, blankIds, a, block);
  }

  lemma OthersUntouched(mem: seq<Node>, mem': seq<Node>, head: int, ids: seq<nat>, a: seq<nat>, block: nat)
    requires IsList(mem, head, ids) && |mem'| == |mem| && block !in ids && NoShared(a, ids)
    requires forall id :: 0 <= id < |mem| && id != LastOr(a, NIL) && id != block ==> mem'[id] == mem[id]
    ensures IsList(mem', head, ids) && Read(mem', ids) == Read(mem, ids)
  {
    assert a != [] ==> a[|a| - 1] in a;
    ListUntouched(mem, mem', head, ids, NIL);
  }

  /** Pushes the nodes of a segment onto a list, first one first. */
  ghost function PushAll(seg: seq<nat>, onto: seq<nat>): seq<nat>
    decreases |seg|
  {
    if seg == [] then onto else PushAll(seg[1..], [seg[0]] + onto)
  }

  lemma {:induction false} PushAllMembers(seg: seq<nat>, onto: seq<nat>)
    ensures forall id :: id in PushAll(seg, onto) <==> id in seg || id in onto
    decreases |seg|
  {
    if seg != [] {
      PushAllMembers(seg[1..], [seg[0]] + onto);
      assert seg == [seg[0]] + seg[1..];
    }
  }

  // ----- runs of touching blocks -----

  ghost predicate Touching(b: Block, run: seq<Block>)
    decreases |run|
  {
    run == [] || (b.End() == run[0].addr && Touching(run[0], run[1..]))
  }

  /** The last block of a run. */
  ghost function RunLast(b: Block, run: seq<Block>): Block
    decreases |run|
  {
    if run == [] then b else RunLast(run[0], run[1..])
  }

  lemma {:induction false} RunGrows(b: Block, run: seq<Block>, next: Block)
    requires Touching(b, run) && RunLast(b, run).End() == next.addr
    ensures Touching(b, run + [next]) && RunLast(b, run + [next]) == next
    decreases |run|
  {
    if run == [] {
    } else {
      assert (run + [next])[1..] == run[1..] + [next];
      RunGrows(run[0], run[1..], next);
    }
  }

  ghost function Ids(s: seq<Block>): seq<nat>
    decreases |s|
  {
    if s == [] then [] else [s[0].id] + Ids(s[1..])
  }

  /** Compacting joins a whole run of touching blocks into its first one. */
  lemma {:induction false} CompactRun(b: Block, run: seq<Block>, z: seq<Block>, blank: seq<nat>)
    requires Touching(b, run)
    ensures RunLast(b, run).End() >= b.addr
    ensures Compact([b] + (run + z), blank)
      == Compact([b.(size := RunLast(b, run).End() - b.addr)] + z, PushAll(Ids(run), blank))
    decreases |run|
  {
    if run == [] {
      assert run + z == z;
    } else {
      var joined := b.(size := b.size + run[0].size);
      assert RunLast(joined, run[1..]).End() == RunLast(run[0], run[1..]).End();
      CompactRun(joined, run[1..], z, [run[0].id] + blank);
      assert run + z == [run[0]] + (run[1..] + z);
      CompactStep(b, run[0], run[1..] + z, blank);
    }
  }

  lemma CompactStep(b: Block, d: Block, z: seq<Block>, blank: seq<nat>)
    requires b.End() == d.addr
    ensures Compact([b] + ([d] + z), blank) == Compact([b.(size := b.size + d.size)] + z, [d.id] + blank)
  {
    var s := [b] + ([d] + z);
    assert s[2..] == z;
  }

  /** A block that touches the run belongs to it. */
  lemma LongerRun(mem: seq<Node>, p: nat, run: seq<nat>, x: nat, prev: nat)
    requires x < |mem| && prev < |mem| && mem[prev].addr + mem[prev].size == mem[x].addr
    requires var s := Read(mem, [p] + run);
      Touching(s[0], s[1..]) && RunLast(s[0], s[1..]) == Block(prev, mem[prev].addr, mem[prev].size)
    ensures var s := Read(mem, [p] + (run + [x]));
      Touching(s[0], s[1..]) && RunLast(s[0], s[1..]) == Block(x, mem[x].addr, mem[x].size)
  {
    var s, b := Read(mem, [p] + run), Block(x, mem[x].addr, mem[x].size);
    ReadLonger(mem, p, run, x);
    RunGrows(s[0], s[1..], b);
    Snoc(s, b);
  }

  lemma ReadLonger(mem: seq<Node>, p: nat, run: seq<nat>, x: nat)
    requires x < |mem|
    ensures Read(mem, [p] + (run + [x])) == Read(mem, [p] + run) + [Block(x, mem[x].addr, mem[x].size)]
  {
    JoinedRead(mem, [p] + run, [x]);
    assert [x][1..] == [] && Read(mem, [x]) == [Block(x, mem[x].addr, mem[x].size)];
    assert [p] + run + [x] == [p] + (run + [x]);
  }

  lemma Snoc<T>(s: seq<T>, x: T)
    requires s != []
    ensures (s + [x])[0] == s[0] && (s + [x])[1..] == s[1..] + [x]
  {
  }

  lemma {:induction false} IdsOfRead(mem: seq<Node>, head: int, ids: seq<nat>, end: int)
    requires Leads(mem, head, ids, end)
    ensures Ids(Read(mem, ids)) == ids
    decreases |ids|
  {
    if ids != [] { IdsOfRead(mem, mem[ids[0]].next, ids[1..], end); }
  }

  /** One pass of the loop of `compact`: a block, the run after it, and a rest that does not touch. */
  lemma CompactPass(b: Block, run: seq<Block>, rest: seq<Block>, blank: seq<nat>)
    requires Touching(b, run) && (rest != [] ==> RunLast(b, run).End() != rest[0].addr)
    ensures RunLast(b, run).End() >= b.addr
    ensures var after := Compact(rest, PushAll(Ids(run), blank));
      Compact([b] + (run + rest), blank) == ([b.(size := RunLast(b, run).End() - b.addr)] + after.0, after.1)
  {
    CompactRun(b, run, rest, blank);
    CompactHead(b.(size := RunLast(b, run).End() - b.addr), rest, PushAll(Ids(run), blank));
  }

  /** What a pass makes of the list from `ptr` on. */
  lemma PassEffect(mem: seq<Node>, head: int, a: seq<nat>, p: nat, run: seq<nat>, rest: seq<nat>, prev: nat, blank: seq<nat>)
    requires IsList(mem, head, a + ([p] + (run + rest))) && p < |mem| && prev < |mem|
    requires var s := Read(mem, [p] + run);
      Touching(s[0], s[1..]) && RunLast(s[0], s[1..]) == Block(prev, mem[prev].addr, mem[prev].size)
    requires rest != [] ==> rest[0] < |mem| && mem[prev].addr + mem[prev].size != mem[rest[0]].addr
    ensures mem[prev].addr - mem[p].addr + mem[prev].size >= 0
    ensures var after := Compact(Read(mem, rest), PushAll(run, blank));
      Compact(Read(mem, [p] + (run + rest)), blank)
        == ([Block(p, mem[p].addr, mem[prev].addr - mem[p].addr + mem[prev].size)] + after.0, after.1)
  {
    var b, r := Block(p, mem[p].addr, mem[p].size), Read(mem, run);
    PassReads(mem, head, a, p, run, rest);
    CompactPass(b, r, Read(mem, rest), blank);
  }

  lemma PassRest(mem: seq<Node>, a: seq<nat>, p: nat, more: seq<Block>)
    requires p < |mem|
    ensures Read(mem, a + [p]) + more == Read(mem, a) + ([Block(p, mem[p].addr, mem[p].size)] + more)
  {
    Joined(mem, 0, a, [p], 0);
    assert [p][1..] == [];
    assert Read(mem, [p]) == [Block(p, mem[p].addr, mem[p].size)];
  }

  lemma CompactHead(b: Block, rest: seq<Block>, blank: seq<nat>)
    requires rest != [] ==> b.End() != rest[0].addr
    ensures Compact([b] + rest, blank) == ([b] + Compact(rest, blank).0, Compact(rest, blank).1)
  {
    if rest == [] {
      assert [b] + rest == [b];
    } else {
      assert ([b] + rest)[1..] == rest;
    }
  }

  // ----- giving nodes back -----

  /** Halfway through `release_blocks`: `rest` is still to go. */
  ghost predicate Releasing(mem: seq<Node>, scan: int, rest: seq<nat>, to: int, blank: int, blankIds: seq<nat>) {
    && Leads(mem, scan, rest, to) && Distinct(rest) && to !in rest
    && IsList(mem, blank, blankIds) && NoShared(rest, blankIds)
  }

  lemma ReleaseStep(mem: seq<Node>, rest: seq<nat>, to: int, blank: int, blankIds: seq<nat>)
    requires rest != [] && Releasing(mem, rest[0], rest, to, blank, blankIds)
    ensures rest[0] < |mem|
    ensures var mem' := mem[rest[0] := Node(0, blank, 0)];
      Releasing(mem', mem[rest[0]].next, rest[1..], to, rest[0], [rest[0]] + blankIds)
  {
    var node := Node(0, blank, 0);
    PushFront(mem, blank, blankIds, rest[0], node);
    ListUntouched(mem, mem[rest[0] := node], mem[rest[0]].next, rest[1..], to);
    assert forall id :: id in rest[1..] ==> id in rest;
  }

  // ----- joining a run -----

  /** A list cut into a front, one node, a run after it and a rest. */
  lemma CutRun(mem: seq<Node>, head: int, a: seq<nat>, p: nat, run: seq<nat>, rest: seq<nat>)
    requires IsList(mem, head, a + ([p] + (run + rest)))
    ensures Leads(mem, head, a, p) && p < |mem| && mem[p].next == HeadOr(run + rest, NIL)
    ensures Leads(mem, HeadOr(run, HeadOr(rest, NIL)), run, HeadOr(rest, NIL)) && Leads(mem, HeadOr(rest, NIL), rest, NIL)
    ensures Distinct(a) && Distinct(run) && Distinct(rest) && NoShared(run, rest)
    ensures NoShared(a, [p]) && NoShared(a, run) && NoShared(a, rest) && p !in run && p !in rest
    ensures HeadOr(run + rest, NIL) == HeadOr(run, HeadOr(rest, NIL))
  {
    var b := run + rest;
    UnlinkFrom(mem, head, a, p, b);
    Cut(mem, head, a, [p] + b);
    assert ([p] + b)[1..] == b;
    assert Distinct(b) by { assert forall i :: 0 <= i < |b| ==> b[i] == ([p] + b)[i + 1]; }
    Cut(mem, HeadOr(b, NIL), run, rest);
  }

  lemma RunMembers(ids: seq<nat>, a: seq<nat>, p: nat, run: seq<nat>, rest: seq<nat>)
    requires ids == a + ([p] + (run + rest))
    ensures forall id :: id in ids <==> id in a || id == p || id in run || id in rest
    ensures forall id :: id in a + [p] + rest <==> id in a || id == p || id in rest
  {
  }

  /** The list without the run, once its first block points past it. */
  lemma JoinChain(mem: seq<Node>, mem': seq<Node>, head: int, a: seq<nat>, p: nat, run: seq<nat>, rest: seq<nat>)
    requires IsList(mem, head, a + ([p] + (run + rest))) && |mem'| == |mem| && p < |mem|
    requires forall id :: 0 <= id < |mem| && id != p && id !in run ==> mem'[id] == mem[id]
    requires mem'[p].next == HeadOr(rest, NIL)
    ensures IsList(mem', head, a + [p] + rest)
    ensures Read(mem', a) == Read(mem, a) && Read(mem', rest) == Read(mem, rest)
  {
    CutRun(mem, head, a, p, run, rest);
    assert p in [p];
    ListUntouched(mem, mem', head, a, p);
    ListUntouched(mem, mem', HeadOr(rest, NIL), rest, NIL);
    LinkJoined(mem', head, a, p, rest);
    DistinctWith(a, p, rest);
  }

  lemma JoinLists(mem: seq<Node>, mem': seq<Node>, head: int, a: seq<nat>, p: nat, run: seq<nat>, rest: seq<nat>,
                  used: int, usedIds: seq<nat>, blank: int, blankIds: seq<nat>, blank': int)
    requires Lists(mem, head, a + ([p] + (run + rest)), used, usedIds, blank, blankIds) && |mem'| == |mem| && p < |mem|
    requires forall id :: 0 <= id < |mem| && id != p && id !in run ==> mem'[id] == mem[id]
    requires mem'[p].next == HeadOr(rest, NIL) && IsList(mem', blank', PushAll(run, blankIds))
    ensures Lists(mem', head, a + [p] + rest, used, usedIds, blank', PushAll(run, blankIds))
    ensures Read(mem', usedIds) == Read(mem, usedIds)
  {
    var ids := a + ([p] + (run + rest));
    RunMembers(ids, a, p, run, rest);
    PushAllMembers(run, blankIds);
    CutRun(mem, head, a, p, run, rest);
    JoinChain(mem, mem', head, a, p, run, rest);
    assert p in ids && p in [p];
    assert forall id :: id in run ==> id in ids;
    ListUntouched(mem, mem', used, usedIds, NIL);
  }

  lemma PassReads(mem: seq<Node>, head: int, a: seq<nat>, p: nat, run: seq<nat>, rest: seq<nat>)
    requires IsList(mem, head, a + ([p] + (run + rest)))
    ensures p < |mem| && p !in run && Ids(Read(mem, run)) == run
    ensures Read(mem, [p] + (run + rest)) == [Block(p, mem[p].addr, mem[p].size)] + (Read(mem, run) + Read(mem, rest))
    ensures Read(mem, [p] + run)[1..] == Read(mem, run) && Read(mem, [p] + run)[0] == Block(p, mem[p].addr, mem[p].size)
    ensures rest != [] ==> rest[0] < |mem| && Read(mem, rest)[0] == Block(rest[0], mem[rest[0]].addr, mem[rest[0]].size)
    ensures mem[p].next == HeadOr(run + rest, NIL)
  {
    CutRun(mem, head, a, p, run, rest);
    IdsOfRead(mem, HeadOr(run, HeadOr(rest, NIL)), run, HeadOr(rest, NIL));
    Joined(mem, 0, run, rest, 0);
    assert ([p] + (run + rest))[1..] == run + rest;
    assert ([p] + run)[1..] == run;
    HeadRead(mem, HeadOr(rest, NIL), rest, NIL);
  }

  // ----- searching and moving -----

  lemma {:induction false} FindAddrPosition(a: seq<Block>, z: seq<Block>, addr: nat)
    requires forall i :: 0 <= i < |a| ==> a[i].addr != addr
    requires z != [] ==> z[0].addr == addr
    ensures FindAddr(a + z, addr) == |a|
  {
    if a == [] {
      assert a + z == z;
    } else {
      assert (a + z)[1..] == a[1..] + z;
      FindAddrPosition(a[1..], z, addr);
    }
  }

  lemma {:induction false} FirstFitPosition(a: seq<Block>, z: seq<Block>, top: nat, limit: nat, num: nat)
    requires forall i :: 0 <= i < |a| ==> !Fits(a[i], top, limit, num)
    requires z != [] ==> Fits(z[0], top, limit, num)
    ensures FirstFit(a + z, top, limit, num) == |a|
  {
    if a == [] {
      assert a + z == z;
    } else {
      assert (a + z)[1..] == a[1..] + z;
      FirstFitPosition(a[1..], z, top, limit, num);
    }
  }

  lemma ReadWithout(mem: seq<Node>, a: seq<nat>, p: nat, z: seq<nat>)
    requires p < |mem|
    ensures Read(mem, a + ([p] + z))[|a|] == Block(p, mem[p].addr, mem[p].size)
    ensures Without(Read(mem, a + ([p] + z)), |a|) == Read(mem, a) + Read(mem, z)
  {
    Joined(mem, 0, a, [p] + z, 0);
    assert ([p] + z)[1..] == z;
  }

  lemma LastInside(mem: seq<Node>, head: int, a: seq<nat>, b: seq<nat>)
    requires Leads(mem, head, a + b, NIL)
    ensures LastOr(a, NIL) < |mem| && (a != [] ==> LastOr(a, NIL) in a)
  {
    if a != [] {
      MembersInside(mem, head, a + b, NIL);
      assert (a + b)[|a| - 1] == LastOr(a, NIL);
      assert LastOr(a, NIL) in a + b;
    }
  }

  /** Taking one node out of a list, as seen by the other lists and by the node. */
  lemma TakeNode(mem: seq<Node>, head: int, a: seq<nat>, p: nat, z: seq<nat>)
    requires IsList(mem, head, a + ([p] + z))
    ensures p < |mem| && LastOr(a, NIL) < |mem|
    ensures var mem' := PointTo(mem, LastOr(a, NIL), mem[p].next);
      && IsList(mem', HeadAfter(LastOr(a, NIL), head, mem[p].next), a + z)
      && Read(mem', a + z) == Without(Read(mem, a + ([p] + z)), |a|)
      && mem'[p] == mem[p]
    ensures Read(mem, a + ([p] + z))[|a|] == Block(p, mem[p].addr, mem[p].size)
    ensures p !in a + z && forall id :: id in a + ([p] + z) <==> id == p || id in a + z
  {
    UnlinkFrom(mem, head, a, p, z);
    LastInside(mem, head, a, [p] + z);
    ReadWithout(mem, a, p, z);
  }

  ghost function From(k: nat, n: nat): seq<nat>
    requires k <= n
  {
    seq(n - k, i requires 0 <= i < n - k => k + i)
  }

  /** Nodes that point to their successors form one list. */
  lemma {:induction false} Consecutive(mem: seq<Node>, k: nat)
    requires k < |mem| && mem[|mem| - 1].next == NIL
    requires forall i :: 0 <= i < |mem| - 1 ==> mem[i].next == i + 1
    ensures IsList(mem, k, From(k, |mem|))
    decreases |mem| - k
  {
    var ids := From(k, |mem|);
    if k < |mem| - 1 {
      Consecutive(mem, k + 1);
      assert ids[1..] == From(k + 1, |mem|);
    } else {
      assert ids == [k];
    }
  }

  class TinyAlloc {
    const blocks: array<Node>
    const limit: nat
    const threshold: nat
    const alignment: nat
    ghost const start: nat
    var free: int
    var used: int
    var blank: int
    var top: nat
    ghost var freeIds: seq<nat>
    ghost var usedIds: seq<nat>
    ghost var blankIds: seq<nat>

    ghost predicate Linked()
      reads this, blocks
    {
      Lists(blocks[..], free, freeIds, used, usedIds, blank, blankIds)
    }

    ghost function View(): Heap
      reads this, blocks
    {
      Heap(Read(blocks[..], freeIds), Read(blocks[..], usedIds), blankIds, top)
    }

    ghost function Settings(): Config
      reads this, blocks
    {
      Config(start, limit, blocks.Length, threshold, alignment)
    }

    ghost predicate OnNoList(block: nat)
      reads this
    {
      block < blocks.Length && block !in freeIds && block !in usedIds && block !in blankIds
    }

    /** `ta_init`: all blocks are blank, in array order. */
    constructor (top: nat, limit: nat, heapBlocks: nat, threshold: nat, alignment: nat)
      requires heapBlocks > 0
      ensures Linked() && fresh(blocks)
      ensures Settings() == Config(top, limit, heapBlocks, threshold, alignment)
      ensures View() == HeapSpec.Init(Settings())
    {
      this.limit, this.threshold, this.alignment, this.start := limit, threshold, alignment, top;
      free, used, blank, this.top := NIL, NIL, 0, top;
      freeIds, usedIds := [], [];
      blankIds := seq(heapBlocks, i => i);
      blocks := new Node[heapBlocks];
      new;
      var block := 0;
      while block < heapBlocks - 1
        invariant 0 <= block <= heapBlocks - 1
        invariant forall i :: 0 <= i < block ==> blocks[i].next == i + 1
        modifies blocks
      {
        blocks[block] := blocks[block].(next := block + 1);
        block := block + 1;
      }
      blocks[block] := blocks[block].(next := NIL);
      Consecutive(blocks[..], 0);
      assert blankIds == From(0, heapBlocks);
    }

    /** `count_blocks` */
    method CountBlocks(first: int, ghost ids: seq<nat>) returns (num: nat)
      requires IsList(blocks[..], first, ids)
      ensures num == |ids|
    {
      num := 0;
      var ptr := first;
      ghost var rest := ids;
      while ptr != NIL
        invariant Leads(blocks[..], ptr, rest, NIL) && num + |rest| == |ids|
        decreases |rest|
      {
        num := num + 1;
        ptr := blocks[ptr].next;
        rest := rest[1..];
      }
    }

    /** `ta_check` */
    method CheckBlocks() returns (ok: bool)
      requires Linked()
      ensures ok == HeapSpec.Check(Settings(), View())
      ensures HeapProperties.Valid(Settings(), View()) ==> ok
    {
      var f := CountBlocks(free, freeIds);
      var u := CountBlocks(used, usedIds);
      var b := CountBlocks(blank, blankIds);
      ok := blocks.Length == f + u + b;
      if HeapProperties.Valid(Settings(), View()) {
        HeapProperties.ValidChecks(Settings(), View());
      }
    }

    /** The search loop of `insert_block`: the first free block whose address is not lower. */
    method FindPlace(block: nat) returns (prev: int, ptr: int, ghost a: seq<nat>, ghost z: seq<nat>)
      requires Linked() && block < blocks.Length
      ensures freeIds == a + z && ptr == HeadOr(z, NIL) && prev == LastOr(a, NIL) < blocks.Length
      ensures forall i :: 0 <= i < |a| ==> Read(blocks[..], a)[i].addr < blocks[block].addr
      ensures z != [] ==> z[0] < blocks.Length && blocks[block].addr <= blocks[z[0]].addr
    {
      ghost var mem := blocks[..];
      a, z := [], freeIds;
      ptr, prev := free, NIL;
      while ptr != NIL
        invariant a + z == freeIds && ptr == HeadOr(z, NIL) && prev == LastOr(a, NIL) < blocks.Length
        invariant forall i :: 0 <= i < |a| ==> Read(mem, a)[i].addr < mem[block].addr
        decreases |z|
      {
        Cut(mem, free, a, z);
        if blocks[block].addr <= blocks[ptr].addr {
          break;
        }
        Joined(mem, 0, a, [z[0]], 0);
        assert a + z == (a + [z[0]]) + z[1..];
        prev := ptr;
        ptr := blocks[ptr].next;
        a, z := a + [z[0]], z[1..];
      }
    }

    /** `insert_block`: links a node that is on no list into the free list. */
    method InsertBlock(block: nat)
      requires Linked() && OnNoList(block)
      modifies this`free, this`freeIds, blocks
      ensures Linked() && forall id :: id in freeIds <==> id == block || id in old(freeIds)
      ensures View() == old(View()).(free :=
        Insert(old(View()).free, Block(block, old(blocks[block]).addr, old(blocks[block]).size)))
    {
      var prev, ptr, a, z := FindPlace(block);
      ghost var mem := blocks[..];
      InsertLists(mem, free, a, block, z, used, usedIds, blank, blankIds);
      if prev != NIL {
        blocks[prev] := blocks[prev].(next := block);
      } else {
        free := block;
      }
      blocks[block] := blocks[block].(next := ptr);
      freeIds := a + [block] + z;
      assert blocks[..] == LinkedMem(mem, LastOr(a, NIL), block, HeadOr(z, NIL));
    }

    /** `release_blocks`: the nodes from `first` up to `to` become blank, one by one. */
    method ReleaseBlocks(first: int, to: int, ghost seg: seq<nat>)
      requires Releasing(blocks[..], first, seg, to, blank, blankIds)
      modifies this`blank, this`blankIds, blocks
      ensures IsList(blocks[..], blank, blankIds) && blankIds == PushAll(seg, old(blankIds))
      ensures forall id :: 0 <= id < blocks.Length && id !in seg ==> blocks[id] == old(blocks[id])
    {
      var scan := first;
      ghost var rest := seg;
      while scan != to
        invariant Releasing(blocks[..], scan, rest, to, blank, blankIds)
        invariant PushAll(rest, blankIds) == PushAll(seg, old(blankIds))
        invariant forall id :: id in rest ==> id in seg
        invariant forall id :: 0 <= id < blocks.Length && id !in seg ==> blocks[id] == old(blocks[id])
        decreases |rest|
      {
        ReleaseStep(blocks[..], rest, to, blank, blankIds);
        ghost var mem := blocks[..];
        var scanNext := blocks[scan].next;
        blocks[scan] := Node(0, blank, 0);
        blank := scan;
        assert blocks[..] == mem[rest[0] := blocks[scan]];
        blankIds := [rest[0]] + blankIds;
        rest := rest[1..];
        scan := scanNext;
      }
    }
  
    /** The tail of the loop of `compact`: the run after `ptr` joins `ptr`. */
    method JoinRun(ptr: nat, prev: nat, newSize: nat, ghost a: seq<nat>, ghost run: seq<nat>, ghost rest: seq<nat>)
      requires Linked() && freeIds == a + ([ptr] + (run + rest))
      requires run != [] && prev == run[|run| - 1]
      modifies this`blank, this`blankIds, this`freeIds, blocks
      ensures Linked() && freeIds == a + [ptr] + rest && blankIds == PushAll(run, old(blankIds))
      ensures Read(blocks[..], a) == old(Read(blocks[..], a)) && Read(blocks[..], rest) == old(Read(blocks[..], rest))
      ensures Read(blocks[..], usedIds) == old(Read(blocks[..], usedIds))
      ensures ptr < blocks.Length && blocks[ptr] == Node(old(blocks[ptr]).addr, HeadOr(rest, NIL), newSize)
    {
      ghost var mem := blocks[..];
      var next := DetachRun(ptr, prev, newSize, a, run, rest);
      ghost var mid := blocks[..];
      blocks[ptr] := blocks[ptr].(next := next);
      freeIds := a + [ptr] + rest;
      PushAllMembers(run, old(blankIds));
      RunMembers(a + ([ptr] + (run + rest)), a, ptr, run, rest);
      assert ptr in old(freeIds);
      ListUntouched(mid, blocks[..], blank, blankIds, NIL);
      JoinLists(mem, blocks[..], free, a, ptr, run, rest, used, usedIds, old(blank), old(blankIds), blank);
      JoinChain(mem, blocks[..], free, a, ptr, run, rest);
    }

    /** Resizes `ptr` and releases the run; `next` is where `ptr` has to point afterwards. */
    method DetachRun(ptr: nat, prev: nat, newSize: nat, ghost a: seq<nat>, ghost run: seq<nat>, ghost rest: seq<nat>)
      returns (next: int)
      requires Linked() && freeIds == a + ([ptr] + (run + rest))
      requires run != [] && prev == run[|run| - 1]
      modifies this`blank, this`blankIds, blocks
      ensures next == HeadOr(rest, NIL) && ptr < blocks.Length && ptr !in run
      ensures blankIds == PushAll(run, old(blankIds)) && IsList(blocks[..], blank, blankIds)
      ensures forall id :: 0 <= id < blocks.Length && id != ptr && id !in run ==> blocks[id] == old(blocks[id])
      ensures blocks[ptr] == Node(old(blocks[ptr]).addr, old(blocks[ptr]).next, newSize)
    {
      ghost var mem := blocks[..];
      ghost var to := HeadOr(rest, NIL);
      CutRun(mem, free, a, ptr, run, rest);
      RunMembers(freeIds, a, ptr, run, rest);
      ReadAt(mem, HeadOr(run, to), run, |run| - 1, to);
      blocks[ptr] := blocks[ptr].(size := newSize);
      next := blocks[prev].next;
      ListUntouched(mem, blocks[..], HeadOr(run, to), run, to);
      ListUntouched(mem, blocks[..], blank, blankIds, NIL);
      assert to !in run;
      ReleaseBlocks(blocks[ptr].next, next, run);
    }
  
    /** The inner loop of `compact`: the run of free blocks that touch each other after `ptr`. */
    method FindRun(ptr: nat, ghost a: seq<nat>, ghost z: seq<nat>) returns (prev: nat, ghost run: seq<nat>, ghost rest: seq<nat>)
      requires Linked() && freeIds == a + ([ptr] + z)
      ensures z == run + rest && prev == LastOr([ptr] + run, NIL) < blocks.Length && ptr < blocks.Length
      ensures var s := Read(blocks[..], [ptr] + run);
        && Touching(s[0], s[1..]) && RunLast(s[0], s[1..]) == Block(prev, blocks[prev].addr, blocks[prev].size)
      ensures rest != [] ==> rest[0] < blocks.Length && blocks[prev].addr + blocks[prev].size != blocks[rest[0]].addr
    {
      ghost var mem := blocks[..];
      Cut(mem, free, a, [ptr] + z);
      run, rest := [], z;
      prev := ptr;
      var scan := blocks[ptr].next;
      while scan != NIL && blocks[prev].addr + blocks[prev].size == blocks[scan].addr
        invariant z == run + rest && prev == LastOr([ptr] + run, NIL) < blocks.Length
        invariant Leads(mem, scan, rest, NIL)
        invariant var s := Read(mem, [ptr] + run);
          && Touching(s[0], s[1..]) && RunLast(s[0], s[1..]) == Block(prev, mem[prev].addr, mem[prev].size)
        decreases |rest|
      {
        ghost var x := rest[0];
        LongerRun(mem, ptr, run, x, prev);
        assert run + rest == (run + [x]) + rest[1..];
        prev := scan;
        scan := blocks[scan].next;
        run, rest := run + [x], rest[1..];
      }
    }
  
    /** `compact`: joins every run of touching free blocks. */
    method CompactFree()
      requires Linked()
      modifies this`blank, this`blankIds, this`freeIds, blocks
      ensures Linked() && forall id :: id in freeIds || id in blankIds <==> id in old(freeIds) || id in old(blankIds)
      ensures var (f, b) := Compact(old(View()).free, old(View()).blank);
        View() == old(View()).(free := f, blank := b)
    {
      var ptr := free;
      ghost var a, z := [], freeIds;
      while ptr != NIL
        invariant Linked() && freeIds == a + z && ptr == HeadOr(z, NIL)
        invariant forall id :: id in freeIds || id in blankIds <==> id in old(freeIds) || id in old(blankIds)
        invariant Read(blocks[..], usedIds) == old(Read(blocks[..], usedIds))
        invariant var (f, b) := Compact(old(View()).free, old(View()).blank);
          var (f', b') := Compact(Read(blocks[..], z), blankIds);
          f == Read(blocks[..], a) + f' && b == b'
        decreases |z|
      {
        ptr, a, z := CompactPtr(ptr, a, z);
      }
      assert a + z == a;
    }

    /** One pass of the loop of `compact`. */
    method CompactPtr(ptr: nat, ghost a: seq<nat>, ghost z: seq<nat>) returns (next: int, ghost a': seq<nat>, ghost z': seq<nat>)
      requires Linked() && freeIds == a + z && z != [] && ptr == z[0]
      modifies this`blank, this`blankIds, this`freeIds, blocks
      ensures Linked() && freeIds == a' + z' && next == HeadOr(z', NIL) && |z'| < |z|
      ensures forall id :: id in freeIds || id in blankIds <==> id in old(freeIds) || id in old(blankIds)
      ensures Read(blocks[..], usedIds) == old(Read(blocks[..], usedIds))
      ensures var (f, b) := Compact(old(Read(blocks[..], z)), old(blankIds));
        var (f', b') := Compact(Read(blocks[..], z'), blankIds);
        old(Read(blocks[..], a)) + f == Read(blocks[..], a') + f' && b == b'
    {
      ghost var mem := blocks[..];
      assert z == [ptr] + z[1..];
      var prev, run, rest := FindRun(ptr, a, z[1..]);
      PassEffect(mem, free, a, ptr, run, rest, prev, blankIds);
      next := PassOver(ptr, prev, a, run, rest);
      a', z' := a + [ptr], rest;
      PassRest(blocks[..], a, ptr, Compact(Read(blocks[..], rest), blankIds).0);
    }

    /** Joins the run after `ptr`, if there is one, and moves on. */
    method PassOver(ptr: nat, prev: nat, ghost a: seq<nat>, ghost run: seq<nat>, ghost rest: seq<nat>) returns (next: int)
      requires Linked() && freeIds == a + ([ptr] + (run + rest))
      requires ptr < blocks.Length && prev == LastOr([ptr] + run, NIL) < blocks.Length
      requires blocks[prev].addr - blocks[ptr].addr + blocks[prev].size >= 0
      modifies this`blank, this`blankIds, this`freeIds, blocks
      ensures Linked() && freeIds == (a + [ptr]) + rest && next == HeadOr(rest, NIL)
      ensures blankIds == PushAll(run, old(blankIds))
      ensures forall id :: id in freeIds || id in blankIds <==> id in old(freeIds) || id in old(blankIds)
      ensures Read(blocks[..], a) == old(Read(blocks[..], a)) && Read(blocks[..], rest) == old(Read(blocks[..], rest))
      ensures Read(blocks[..], usedIds) == old(Read(blocks[..], usedIds))
      ensures blocks[ptr].addr == old(blocks[ptr].addr)
      ensures blocks[ptr].size == old(blocks[prev].addr - blocks[ptr].addr + blocks[prev].size)
    {
      PassReads(blocks[..], free, a, ptr, run, rest);
      PushAllMembers(run, blankIds);
      RunMembers(a + ([ptr] + (run + rest)), a, ptr, run, rest);
      assert a + ([ptr] + ([] + rest)) == (a + [ptr]) + rest;
      assert run == [] ==> prev == ptr;
      if prev != ptr {
        JoinRun(ptr, prev, blocks[prev].addr - blocks[ptr].addr + blocks[prev].size, a, run, rest);
      }
      next := blocks[ptr].next;
    }

    /** The search loop of `ta_free`. */
    method FindUsed(addr: nat) returns (prev: int, block: int, ghost a: seq<nat>, ghost z: seq<nat>)
      requires Linked()
      ensures usedIds == a + z && block == HeadOr(z, NIL) && prev == LastOr(a, NIL) < blocks.Length
      ensures FindAddr(Read(blocks[..], usedIds), addr) == |a|
    {
      ghost var mem := blocks[..];
      a, z := [], usedIds;
      prev, block := NIL, used;
      while block != NIL
        invariant a + z == usedIds && block == HeadOr(z, NIL) && prev == LastOr(a, NIL) < blocks.Length
        invariant forall i :: 0 <= i < |a| ==> Read(mem, a)[i].addr != addr
        decreases |z|
      {
        Cut(mem, used, a, z);
        if addr == blocks[block].addr {
          break;
        }
        Joined(mem, 0, a, [z[0]], 0);
        assert a + z == (a + [z[0]]) + z[1..];
        prev := block;
        block := blocks[block].next;
        a, z := a + [z[0]], z[1..];
      }
      Cut(mem, used, a, z);
      FindAddrPosition(Read(mem, a), Read(mem, z), addr);
      Joined(mem, 0, a, z, 0);
    }

    /** Takes a block out of the used list. */
    method UnlinkUsed(prev: int, block: nat, ghost a: seq<nat>, ghost z: seq<nat>)
      requires Linked() && usedIds == a + ([block] + z) && prev == LastOr(a, NIL)
      modifies this`used, this`usedIds, blocks
      ensures Linked() && OnNoList(block) && blocks[block] == old(blocks[block])
      ensures old(View()).used[|a|] == Block(block, blocks[block].addr, blocks[block].size)
      ensures View() == old(View()).(used := Without(old(View()).used, |a|))
    {
      ghost var mem := blocks[..];
      TakeNode(mem, used, a, block, z);
      if prev != NIL {
        blocks[prev] := blocks[prev].(next := blocks[block].next);
      } else {
        used := blocks[block].next;
      }
      assert blocks[..] == PointTo(mem, prev, mem[block].next);
      usedIds := a + z;
      assert a != [] ==> prev in a + ([block] + z);
      ListUntouched(mem, blocks[..], free, freeIds, NIL);
      ListUntouched(mem, blocks[..], blank, blankIds, NIL);
    }

    /** `ta_free` */
    method Free(addr: nat) returns (ok: bool)
      requires Linked()
      modifies this`free, this`used, this`blank, this`freeIds, this`usedIds, this`blankIds, blocks
      ensures Linked() && (View(), ok) == HeapSpec.Free(old(View()), addr)
      ensures HeapProperties.Valid(Settings(), old(View())) ==> HeapProperties.Valid(Settings(), View())
    {
      if HeapProperties.Valid(Settings(), View()) {
        HeapProperties.FreeValid(Settings(), View(), addr);
      }
      var prev, block, a, z := FindUsed(addr);
      if block == NIL {
        assert a + z == a;
        return false;
      }
      assert z == [block] + z[1..];
      UnlinkUsed(prev, block, a, z[1..]);
      InsertBlock(block);
      CompactFree();
      return true;
    }
  
    /** The search loop of `alloc_block`. */
    method FindFit(num: nat) returns (prev: int, ptr: int, ghost a: seq<nat>, ghost z: seq<nat>)
      requires Linked()
      ensures freeIds == a + z && ptr == HeadOr(z, NIL) && prev == LastOr(a, NIL) < blocks.Length
      ensures FirstFit(Read(blocks[..], freeIds), top, limit, num) == |a|
    {
      ghost var mem := blocks[..];
      a, z := [], freeIds;
      prev, ptr := NIL, free;
      while ptr != NIL
        invariant a + z == freeIds && ptr == HeadOr(z, NIL) && prev == LastOr(a, NIL) < blocks.Length
        invariant forall i :: 0 <= i < |a| ==> !Fits(Read(mem, a)[i], top, limit, num)
        decreases |z|
      {
        Cut(mem, free, a, z);
        var isTop := blocks[ptr].addr + blocks[ptr].size >= top && blocks[ptr].addr + num <= limit;
        if isTop || blocks[ptr].size >= num {
          break;
        }
        Joined(mem, 0, a, [z[0]], 0);
        assert a + z == (a + [z[0]]) + z[1..];
        prev := ptr;
        ptr := blocks[ptr].next;
        a, z := a + [z[0]], z[1..];
      }
      Cut(mem, free, a, z);
      FirstFitPosition(Read(mem, a), Read(mem, z), top, limit, num);
      Joined(mem, 0, a, z, 0);
    }

    /** Takes a block out of the free list. */
    method UnlinkFree(prev: int, block: nat, ghost a: seq<nat>, ghost z: seq<nat>)
      requires Linked() && freeIds == a + ([block] + z) && prev == LastOr(a, NIL)
      modifies this`free, this`freeIds, blocks
      ensures Linked() && OnNoList(block) && blocks[block] == old(blocks[block])
      ensures old(View()).free[|a|] == Block(block, blocks[block].addr, blocks[block].size)
      ensures View() == old(View()).(free := Without(old(View()).free, |a|))
    {
      ghost var mem := blocks[..];
      TakeNode(mem, free, a, block, z);
      if prev != NIL {
        blocks[prev] := blocks[prev].(next := blocks[block].next);
      } else {
        free := blocks[block].next;
      }
      assert blocks[..] == PointTo(mem, prev, mem[block].next);
      freeIds := a + z;
      assert a != [] ==> prev in a + ([block] + z);
      ListUntouched(mem, blocks[..], used, usedIds, NIL);
      ListUntouched(mem, blocks[..], blank, blankIds, NIL);
    }

    /** Takes the first blank block. */
    method TakeBlank() returns (block: nat)
      requires Linked() && blankIds != []
      modifies this`blank, this`blankIds
      ensures Linked() && OnNoList(block) && block == old(blankIds)[0]
      ensures View() == old(View()).(blank := old(View()).blank[1..])
    {
      Cut(blocks[..], blank, [blankIds[0]], blankIds[1..]);
      assert [blankIds[0]] + blankIds[1..] == blankIds;
      block := blank;
      blank := blocks[block].next;
      blankIds := blankIds[1..];
    }

    /** Puts a block that is on no list in front of the used list. */
    method PushUsed(block: nat)
      requires Linked() && OnNoList(block)
      modifies this`used, this`usedIds, blocks
      ensures Linked() && usedIds == [block] + old(usedIds)
      ensures View() == old(View()).(used :=
        [Block(block, old(blocks[block]).addr, old(blocks[block]).size)] + old(View()).used)
    {
      ghost var mem := blocks[..];
      var node := blocks[block].(next := used);
      PushFront(mem, used, usedIds, block, node);
      blocks[block] := node;
      used := block;
      usedIds := [block] + usedIds;
      ListUntouched(mem, blocks[..], free, freeIds, NIL);
      ListUntouched(mem, blocks[..], blank, blankIds, NIL);
    }

    /** Changes the size of the first used block. */
    method ResizeUsed(block: nat, size: nat)
      requires Linked() && usedIds != [] && block == usedIds[0]
      modifies blocks
      ensures Linked() && View() == old(View()).(used := [old(View()).used[0].(size := size)] + old(View()).used[1..])
    {
      ghost var mem := blocks[..];
      blocks[block] := blocks[block].(size := size);
      ghost var rest := usedIds[1..];
      assert block !in rest && block in usedIds;
      ListUntouched(mem, blocks[..], mem[block].next, rest, NIL);
      ListUntouched(mem, blocks[..], free, freeIds, NIL);
      ListUntouched(mem, blocks[..], blank, blankIds, NIL);
    }

    /** Writes the address and size of a block that is on no list. */
    method SetBlock(block: nat, addr: nat, size: nat)
      requires Linked() && OnNoList(block)
      modifies blocks
      ensures Linked() && OnNoList(block) && View() == old(View())
      ensures blocks[block].addr == addr && blocks[block].size == size
    {
      ghost var mem := blocks[..];
      blocks[block] := Node(addr, blocks[block].next, size);
      ListUntouched(mem, blocks[..], free, freeIds, NIL);
      ListUntouched(mem, blocks[..], used, usedIds, NIL);
      ListUntouched(mem, blocks[..], blank, blankIds, NIL);
    }

    /** Puts the tail of a split block into the free list. */
    method SplitOff(addr: nat, size: nat)
      requires Linked() && blankIds != []
      modifies this`free, this`freeIds, this`blank, this`blankIds, blocks
      ensures Linked()
      ensures var h := old(View());
        var (f, b) := Compact(Insert(h.free, Block(h.blank[0], addr, size)), h.blank[1..]);
        View() == h.(free := f, blank := b)
    {
      var split := TakeBlank();
      SetBlock(split, addr, size);
      InsertBlock(split);
      CompactFree();
    }

    /** The branch of `alloc_block` that reuses a free block; returns its address. */
    method ReuseBlock(prev: int, ptr: nat, num: nat, ghost a: seq<nat>, ghost z: seq<nat>) returns (addr: nat)
      requires Linked() && freeIds == a + ([ptr] + z) && prev == LastOr(a, NIL)
      requires |a| < |View().free| && Fits(View().free[|a|], top, limit, num)
      modifies this, blocks
      ensures Linked() && View() == Reuse(Settings(), old(View()), |a|, num)
      ensures addr == old(View()).free[|a|].addr
    {
      UnlinkFree(prev, ptr, a, z);
      addr := blocks[ptr].addr;
      var size := blocks[ptr].size;
      PushUsed(ptr);
      if addr + size >= top && addr + num <= limit {
        ResizeUsed(ptr, num);
        top := addr + num;
      } else if blank != NIL {
        if size - num >= threshold {
          ResizeUsed(ptr, num);
          SplitOff(addr + num, size - num);
        }
      }
    }

    /** `alloc_block`; None is the null pointer. */
    method AllocBlock(num: nat) returns (result: Option<nat>)
      requires Linked()
      modifies this, blocks
      ensures Linked() && (View(), result) == AllocRounded(Settings(), old(View()), num)
    {
      var prev, ptr, a, z := FindFit(num);
      FirstFitFits(View().free, top, limit, num);
      if ptr != NIL {
        assert z == [ptr] + z[1..];
        var addr := ReuseBlock(prev, ptr, num, a, z[1..]);
        return Some(addr);
      }
      if blank != NIL && top + num <= limit {
        GrowTop(num);
        return Some(top - num);
      }
      return None;
    }

    /** A blank node becomes a used block at the top. */
    method GrowTop(num: nat)
      requires Linked() && blankIds != []
      modifies this`used, this`usedIds, this`blank, this`blankIds, this`top, blocks
      ensures Linked()
      ensures var h := old(View());
        View() == Heap(h.free, [Block(h.blank[0], h.top, num)] + h.used, h.blank[1..], h.top + num)
    {
      var block := TakeBlank();
      SetBlock(block, top, num);
      PushUsed(block);
      top := top + num;
    }

    /** `ta_alloc` */
    method Alloc(request: nat) returns (result: Option<nat>)
      requires Linked() && 0 < alignment <= WORD
      modifies this, blocks
      ensures Linked() && (View(), result) == HeapSpec.Alloc(Settings(), old(View()), request)
      ensures HeapProperties.Valid(Settings(), old(View())) && HeapProperties.NoWrap(Settings(), request)
        ==> HeapProperties.Valid(Settings(), View())
    {
      if HeapProperties.Valid(Settings(), View()) && HeapProperties.NoWrap(Settings(), request) {
        HeapProperties.AllocValid(Settings(), View(), request);
      }
      result := AllocBlock(RoundedSize(request, alignment));
    }
  }
}
