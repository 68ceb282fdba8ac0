/** Lists threaded through an array of nodes: what relinking does to them. */
module HeapChains {
  import opened HeapSpec

  const NIL: int := -1

  datatype Node = Node(addr: nat, next: int, size: nat)

  ghost predicate Distinct(ids: seq<nat>) {
    forall i, j :: 0 <= i < j < |ids| ==> ids[i] != ids[j]
  }

  ghost function HeadOr(ids: seq<nat>, end: int): int {
    if ids == [] then end else ids[0]
  }

  /** From `head` the `next` fields lead through exactly these nodes to `end`. */
  ghost predicate Leads(mem: seq<Node>, head: int, ids: seq<nat>, end: int)
    decreases |ids|
  {
    if ids == [] then head == end
    else head == ids[0] && ids[0] < |mem| && Leads(mem, mem[ids[0]].next, ids[1..], end)
  }

  /** A null-terminated list without repetition. */
  ghost predicate IsList(mem: seq<Node>, head: int, ids: seq<nat>) {
    Distinct(ids) && Leads(mem, head, ids, NIL)
  }

  ghost predicate NoShared(a: seq<nat>, b: seq<nat>) {
    forall id :: !(id in a && id in b)
  }

  /** The three lists of the heap; no node is on two of them. */
  ghost predicate Lists(mem: seq<Node>, free: int, freeIds: seq<nat>, used: int, usedIds: seq<nat>, blank: int, blankIds: seq<nat>) {
    && IsList(mem, free, freeIds) && IsList(mem, used, usedIds) && IsList(mem, blank, blankIds)
    && NoShared(freeIds, usedIds) && NoShared(freeIds, blankIds) && NoShared(usedIds, blankIds)
  }

  /** The blocks of a list, in order. */
  ghost function Read(mem: seq<Node>, ids: seq<nat>): (s: seq<Block>)
    ensures |s| == |ids|
  {
    if ids == [] then []
    else
      var b := if ids[0] < |mem| then Block(ids[0], mem[ids[0]].addr, mem[ids[0]].size) else Block(0, 0, 0);
      [b] + Read(mem, ids[1..])
  }

  ghost predicate SameOn(mem: seq<Node>, mem': seq<Node>, ids: seq<nat>) {
    |mem'| == |mem| && forall id :: id in ids && id < |mem| ==> mem'[id] == mem[id]
  }

  ghost predicate SameBlocks(mem: seq<Node>, mem': seq<Node>, ids: seq<nat>) {
    |mem'| == |mem| && forall id :: id in ids && id < |mem| ==>
      mem'[id].addr == mem[id].addr && mem'[id].size == mem[id].size
  }

  lemma {:induction false} ListUntouched(mem: seq<Node>, mem': seq<Node>, head: int, ids: seq<nat>, end: int)
    requires Leads(mem, head, ids, end) && SameOn(mem, mem', ids)
    ensures Leads(mem', head, ids, end) && Read(mem', ids) == Read(mem, ids)
    decreases |ids|
  {
    if ids != [] {
      assert forall id :: id in ids[1..] ==> id in ids;
      ListUntouched(mem, mem', mem[ids[0]].next, ids[1..], end);
    }
  }

  lemma {:induction false} ReadUntouched(mem: seq<Node>, mem': seq<Node>, ids: seq<nat>)
    requires SameBlocks(mem, mem', ids)
    ensures Read(mem', ids) == Read(mem, ids)
  {
    if ids != [] {
      assert forall id :: id in ids[1..] ==> id in ids;
      ReadUntouched(mem, mem', ids[1..]);
    }
  }

  lemma {:induction false} JoinedRead(mem: seq<Node>, a: seq<nat>, b: seq<nat>)
    ensures Read(mem, a + b) == Read(mem, a) + Read(mem, b)
    decreases |a|
  {
    if a == [] {
      assert a + b == b;
    } else {
      assert (a + b)[1..] == a[1..] + b;
      JoinedRead(mem, a[1..], b);
    }
  }

  lemma {:induction false} JoinedLeads(mem: seq<Node>, head: int, a: seq<nat>, b: seq<nat>, end: int)
    ensures Leads(mem, head, a + b, end)
      <==> Leads(mem, head, a, HeadOr(b, end)) && Leads(mem, HeadOr(b, end), b, end)
    decreases |a|
  {
    if a == [] {
      assert a + b == b;
    } else {
      assert (a + b)[1..] == a[1..] + b;
      JoinedLeads(mem, if a[0] < |mem| then mem[a[0]].next else head, a[1..], b, end);
    }
  }

  lemma Joined(mem: seq<Node>, head: int, a: seq<nat>, b: seq<nat>, end: int)
    ensures Leads(mem, head, a + b, end)
      <==> Leads(mem, head, a, HeadOr(b, end)) && Leads(mem, HeadOr(b, end), b, end)
    ensures Read(mem, a + b) == Read(mem, a) + Read(mem, b)
  {
    JoinedLeads(mem, head, a, b, end);
    JoinedRead(mem, a, b);
  }

  /** Changing where the last node of a segment points. */
  lemma {:induction false} Retarget(mem: seq<Node>, head: int, ids: seq<nat>, end: int, end': int)
    requires ids != [] && Distinct(ids) && Leads(mem, head, ids, end)
    ensures var last := ids[|ids| - 1];
      last < |mem| && Leads(mem[last := mem[last].(next := end')], head, ids, end')
    decreases |ids|
  {
    if |ids| > 1 {
      Retarget(mem, mem[ids[0]].next, ids[1..], end, end');
      assert ids[1..][|ids| - 2] == ids[|ids| - 1];
    }
  }

  lemma {:induction false} MembersInside(mem: seq<Node>, head: int, ids: seq<nat>, end: int)
    requires Leads(mem, head, ids, end)
    ensures forall id :: id in ids ==> id < |mem|
    decreases |ids|
  {
    if ids != [] {
      MembersInside(mem, mem[ids[0]].next, ids[1..], end);
      assert ids == [ids[0]] + ids[1..];
    }
  }

  // ----- relinking -----

  /** `prev->next = block`, when there is a `prev`. */
  ghost function PointTo(mem: seq<Node>, prev: int, block: int): seq<Node> {
    if 0 <= prev < |mem| then mem[prev := mem[prev].(next := block)] else mem
  }

  /** The head of the list after it. */
  ghost function HeadAfter(prev: int, head: int, block: int): int {
    if prev == NIL then block else head
  }

  ghost function LastOr(ids: seq<nat>, none: int): int {
    if ids == [] then none else ids[|ids| - 1]
  }

  /** `block->next = ptr` after `prev->next = block`. */
  ghost function LinkedMem(mem: seq<Node>, prev: int, block: nat, ptr: int): seq<Node> {
    var mem1 := PointTo(mem, prev, block);
    if block < |mem1| then mem1[block := mem1[block].(next := ptr)] else mem1
  }

  lemma Cut(mem: seq<Node>, head: int, a: seq<nat>, b: seq<nat>)
    requires IsList(mem, head, a + b)
    ensures Leads(mem, head, a, HeadOr(b, NIL)) && Leads(mem, HeadOr(b, NIL), b, NIL)
    ensures Distinct(a) && Distinct(b) && NoShared(a, b)
  {
    Joined(mem, head, a, b, NIL);
    var s := a + b;
    assert forall i :: 0 <= i < |a| ==> s[i] == a[i];
    assert forall i :: 0 <= i < |b| ==> s[|a| + i] == b[i];
  }

  /** The front part of a list, made to lead somewhere else. */
  lemma Redirect(mem: seq<Node>, head: int, a: seq<nat>, end: int, block: int)
    requires Leads(mem, head, a, end) && Distinct(a)
    ensures var mem' := PointTo(mem, LastOr(a, NIL), block);
      Leads(mem', HeadAfter(LastOr(a, NIL), head, block), a, block) && Read(mem', a) == Read(mem, a)
  {
    if a != [] {
      Retarget(mem, head, a, end, block);
      ReadUntouched(mem, PointTo(mem, a[|a| - 1], block), a);
    }
  }

  lemma LinkLeads(mem: seq<Node>, head: int, a: seq<nat>, block: nat, b: seq<nat>)
    requires Leads(mem, head, a, HeadOr(b, NIL)) && Leads(mem, HeadOr(b, NIL), b, NIL)
    requires Distinct(a) && NoShared(a, b) && block !in a && block !in b && block < |mem|
    ensures var mem', head' := LinkedMem(mem, LastOr(a, NIL), block, HeadOr(b, NIL)), HeadAfter(LastOr(a, NIL), head, block);
      Leads(mem', head', a, block) && Leads(mem', HeadOr(b, NIL), b, NIL)
  {
    LinkFront(mem, head, a, block, HeadOr(b, NIL));
    LinkBack(mem, LastOr(a, NIL), block, b);
  }

  lemma LinkFront(mem: seq<Node>, head: int, a: seq<nat>, block: nat, ptr: int)
    requires Leads(mem, head, a, ptr) && Distinct(a) && block !in a && block < |mem|
    ensures Leads(LinkedMem(mem, LastOr(a, NIL), block, ptr), HeadAfter(LastOr(a, NIL), head, block), a, block)
  {
    Redirect(mem, head, a, ptr, block);
    var mem' := LinkedMem(mem, LastOr(a, NIL), block, ptr);
    ListUntouched(PointTo(mem, LastOr(a, NIL), block), mem', HeadAfter(LastOr(a, NIL), head, block), a, block);
  }

  lemma LinkBack(mem: seq<Node>, prev: int, block: nat, b: seq<nat>)
    requires Leads(mem, HeadOr(b, NIL), b, NIL) && block !in b && block < |mem|
    requires forall id :: id in b ==> id as int != prev
    ensures Leads(LinkedMem(mem, prev, block, HeadOr(b, NIL)), HeadOr(b, NIL), b, NIL)
  {
    ListUntouched(mem, LinkedMem(mem, prev, block, HeadOr(b, NIL)), HeadOr(b, NIL), b, NIL);
  }

  /** Three segments that lead into each other are one list. */
  lemma LinkJoined(mem: seq<Node>, head: int, a: seq<nat>, block: nat, b: seq<nat>)
    requires Leads(mem, head, a, block) && Leads(mem, HeadOr(b, NIL), b, NIL)
    requires block < |mem| && mem[block].next == HeadOr(b, NIL)
    ensures Leads(mem, head, a + [block] + b, NIL)
  {
    assert Leads(mem, block, [block] + b, NIL) by { assert ([block] + b)[1..] == b; }
    Joined(mem, head, a, [block] + b, NIL);
    assert a + ([block] + b) == a + [block] + b;
  }

  lemma LinkRead(mem: seq<Node>, a: seq<nat>, block: nat, b: seq<nat>, prev: int, ptr: int)
    requires block < |mem|
    ensures Read(LinkedMem(mem, prev, block, ptr), a + [block] + b)
      == Read(mem, a) + [Block(block, mem[block].addr, mem[block].size)] + Read(mem, b)
  {
    ReadUntouched(mem, LinkedMem(mem, prev, block, ptr), a + [block] + b);
    Joined(mem, 0, a + [block], b, 0);
    Joined(mem, 0, a, [block], 0);
  }

  lemma DistinctWith(a: seq<nat>, block: nat, b: seq<nat>)
    requires Distinct(a) && Distinct(b) && NoShared(a, b) && block !in a && block !in b
    ensures Distinct(a + [block] + b)
  {
    assert Distinct(a + [block]);
    var s := a + [block] + b;
    forall i, j | 0 <= i < j < |s| ensures s[i] != s[j] {
      assert i < |a| + 1 <= j ==> s[j] == b[j - |a| - 1] && s[j] in b;
    }
  }

  /** `insert_block`: a node that is on no list is put in between two parts of one. */
  lemma LinkInto(mem: seq<Node>, head: int, a: seq<nat>, block: nat, b: seq<nat>)
    requires IsList(mem, head, a + b) && block < |mem| && block !in a && block !in b
    ensures var mem' := LinkedMem(mem, LastOr(a, NIL), block, HeadOr(b, NIL));
      && IsList(mem', HeadAfter(LastOr(a, NIL), head, block), a + [block] + b)
      && Read(mem', a + [block] + b)
        == Read(mem, a) + [Block(block, mem[block].addr, mem[block].size)] + Read(mem, b)
  {
    Cut(mem, head, a, b);
    LinkLeads(mem, head, a, block, b);
    LinkJoined(LinkedMem(mem, LastOr(a, NIL), block, HeadOr(b, NIL)), HeadAfter(LastOr(a, NIL), head, block), a, block, b);
    LinkRead(mem, a, block, b, LastOr(a, NIL), HeadOr(b, NIL));
    DistinctWith(a, block, b);
  }

  lemma UnlinkLeads(mem: seq<Node>, head: int, a: seq<nat>, block: nat, z: seq<nat>)
    requires Leads(mem, head, a, block) && Leads(mem, HeadOr(z, NIL), z, NIL)
    requires Distinct(a) && NoShared(a, z)
    ensures var mem' := PointTo(mem, LastOr(a, NIL), HeadOr(z, NIL));
      && Leads(mem', HeadAfter(LastOr(a, NIL), head, HeadOr(z, NIL)), a + z, NIL)
      && Read(mem', a + z) == Read(mem, a) + Read(mem, z)
  {
    var after, prev := HeadOr(z, NIL), LastOr(a, NIL);
    Redirect(mem, head, a, block, after);
    var mem' := PointTo(mem, prev, after);
    ListUntouched(mem, mem', after, z, NIL);
    Joined(mem', HeadAfter(prev, head, after), a, z, NIL);
  }

  /** Taking a node out: `prev->next = block->next`. */
  lemma FirstApart(block: nat, z: seq<nat>)
    requires Distinct([block] + z)
    ensures block !in z && Distinct(z)
  {
    var b := [block] + z;
    forall i | 0 <= i < |z| ensures z[i] != block {
      assert b[i + 1] == z[i] && b[0] == block;
    }
    forall i, j | 0 <= i < j < |z| ensures z[i] != z[j] {
      assert b[i + 1] == z[i] && b[j + 1] == z[j];
    }
  }

  lemma ApartFromRest(a: seq<nat>, block: nat, z: seq<nat>)
    requires NoShared(a, [block] + z)
    ensures block !in a && NoShared(a, z)
  {
    assert block in [block] + z && forall id :: id in z ==> id in [block] + z;
  }

  lemma DistinctJoined(a: seq<nat>, z: seq<nat>)
    requires Distinct(a) && Distinct(z) && NoShared(a, z)
    ensures Distinct(a + z)
  {
    var s := a + z;
    forall i, j | 0 <= i < j < |s| ensures s[i] != s[j] {
      if i < |a| <= j {
        assert s[i] in a && s[j] == z[j - |a|] && s[j] in z;
      }
    }
  }

  lemma UnlinkFrom(mem: seq<Node>, head: int, a: seq<nat>, block: nat, z: seq<nat>)
    requires IsList(mem, head, a + ([block] + z))
    ensures block < |mem| && mem[block].next == HeadOr(z, NIL)
    ensures block !in a && block !in z
    ensures var mem' := PointTo(mem, LastOr(a, NIL), HeadOr(z, NIL));
      && IsList(mem', HeadAfter(LastOr(a, NIL), head, HeadOr(z, NIL)), a + z)
      && Read(mem', a + z) == Read(mem, a) + Read(mem, z)
  {
    var b := [block] + z;
    Cut(mem, head, a, b);
    FirstApart(block, z);
    assert b[0] == block && b[1..] == z;
    ApartFromRest(a, block, z);
    DistinctJoined(a, z);
    UnlinkLeads(mem, head, a, block, z);
  }

  lemma {:induction false} ReadAt(mem: seq<Node>, head: int, ids: seq<nat>, k: nat, end: int)
    requires Leads(mem, head, ids, end) && k < |ids|
    ensures ids[k] < |mem|
    ensures Read(mem, ids)[k] == Block(ids[k], mem[ids[k]].addr, mem[ids[k]].size)
    ensures mem[ids[k]].next == HeadOr(ids[k + 1..], end)
    decreases k
  {
    if k > 0 {
      ReadAt(mem, mem[ids[0]].next, ids[1..], k - 1, end);
      assert ids[1..][k..] == ids[k + 1..];
    }
  }

  /** A node that is on no list becomes the head. */
  lemma PushFront(mem: seq<Node>, head: int, ids: seq<nat>, block: nat, node: Node)
    requires IsList(mem, head, ids) && block < |mem| && block !in ids && node.next == head
    ensures var mem' := mem[block := node];
      && IsList(mem', block, [block] + ids)
      && Read(mem', [block] + ids) == [Block(block, node.addr, node.size)] + Read(mem, ids)
  {
    var mem' := mem[block := node];
    ListUntouched(mem, mem', head, ids, NIL);
    assert ([block] + ids)[1..] == ids;
  }
}
